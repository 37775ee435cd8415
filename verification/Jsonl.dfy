/** The single-header JSONL metrics file: its validator, and the locking protocol of any number of writers
    that append to it. A line is an abstract value: JSON text and partial writes are not modelled. */
module Jsonl {
  import opened Base

  /** `asF64` is what reading a number as a finite double gives. */
  datatype Json =
    | Null
    | Bool(b: bool)
    | Number(asF64: Option<real>)
    | Str(text: string)
    | Array(items: seq<Json>)
    | Object(fields: map<string, Json>)

  /** One line of the file. */
  datatype Line = Blank | Text(value: Json) | Malformed | Unreadable

  const SCHEMA: string := "heimdall-jsonl-v1"

  // ----- Line checks -----

  /** The Unicode White_Space characters that trimming removes. */
  predicate IsWhitespace(c: char) {
    var n := c as int;
    9 <= n <= 13 || n == 0x20 || n == 0x85 || n == 0xa0 || n == 0x1680 || 0x2000 <= n <= 0x200a
    || n == 0x2028 || n == 0x2029 || n == 0x202f || n == 0x205f || n == 0x3000
  }

  predicate TrimmedEmpty(s: string) {
    forall c :: c in s ==> IsWhitespace(c)
  }

  function Get(v: Json, key: string): Option<Json> {
    if v.Object? && key in v.fields then Some(v.fields[key]) else None
  }

  predicate HasText(v: Json, key: string) {
    var field := Get(v, key);
    field.Some? && field.value.Str? && !TrimmedEmpty(field.value.text)
  }

  predicate HasNumber(v: Json, key: string) {
    var field := Get(v, key);
    field.Some? && field.value.Number? && field.value.asF64.Some?
  }

  predicate IsHeader(v: Json) {
    && v.Object?
    && Get(v, "schema") == Some(Str(SCHEMA))
    && HasText(v, "artifact_type") && HasText(v, "node_id") && HasText(v, "producer")
    && HasNumber(v, "created_at")
    && (var flags := Get(v, "flags"); flags.Some? && flags.value.Object?)
  }

  predicate IsSample(v: Json) {
    && v.Object?
    && (forall key :: key in ["schema", "artifact_type", "node_id", "producer", "flags"] ==> Get(v, key) == None)
    && HasNumber(v, "ts") && HasNumber(v, "interval_secs")
    && v.fields["interval_secs"].asF64.value >= 0.0
  }

  predicate HeadersAreCompatible(existing: Json, expected: Json) {
    forall key :: key in ["schema", "artifact_type", "node_id", "producer", "flags"] ==>
      Get(existing, key) == Get(expected, key)
  }

  lemma NoSampleIsHeader(v: Json)
    requires IsSample(v)
    ensures !IsHeader(v)
  {
    assert "schema" in ["schema", "artifact_type", "node_id", "producer", "flags"];
  }

  // ----- Well-formed logs -----

  function NonBlank(lines: seq<Line>): (r: seq<Line>)
    ensures |r| <= |lines|
  {
    if lines == [] then []
    else
      var before := NonBlank(lines[..|lines| - 1]);
      if lines[|lines| - 1].Blank? then before else before + [lines[|lines| - 1]]
  }

  /** Position `i` of the non-blank lines holds what belongs there. */
  predicate LineOk(nonBlank: seq<Line>, i: nat)
    requires i < |nonBlank|
  {
    nonBlank[i].Text? && if i == 0 then IsHeader(nonBlank[i].value) else IsSample(nonBlank[i].value)
  }

  ghost predicate AllOk(nonBlank: seq<Line>) {
    forall i :: 0 <= i < |nonBlank| ==> LineOk(nonBlank, i)
  }

  ghost predicate WellFormed(lines: seq<Line>) {
    AllOk(NonBlank(lines))
  }

  function HeaderOf(lines: seq<Line>): Option<Json> {
    var nb := NonBlank(lines);
    if nb != [] && nb[0].Text? then Some(nb[0].value) else None
  }

  /** Reads the lines in order. `Err(n)` names the first offending non-empty line, counted from one. */
  method ValidateExistingHeaderReader(lines: seq<Line>) returns (r: Result<Option<Json>, nat>)
    ensures r.Ok? <==> WellFormed(lines)
    ensures r.Ok? ==> r.value == HeaderOf(lines) && (r.value.Some? <==> NonBlank(lines) != [])
    ensures r.Err? ==>
              var nb := NonBlank(lines);
              && 0 < r.error <= |nb| && !LineOk(nb, r.error - 1)
              && forall i :: 0 <= i < r.error - 1 ==> LineOk(nb, i)
  {
    var nonEmptyLineIndex := 0;
    var parsedHeader: Option<Json> := None;
    var i := 0;
    ghost var seen: seq<Line> := [];
    while i < |lines|
      invariant i <= |lines|
      invariant seen == NonBlank(lines[..i]) && nonEmptyLineIndex == |seen| && AllOk(seen)
      invariant seen != [] ==> seen[0].Text? && parsedHeader == Some(seen[0].value)
      invariant seen == [] ==> parsedHeader == None
    {
      var line := lines[i];
      NextLine(lines[..i], line, lines[i + 1..]);
      assert lines[..i + 1] == lines[..i] + [line] && lines == lines[..i] + [line] + lines[i + 1..];
      i := i + 1;
      if line.Blank? {
        continue;
      }
      nonEmptyLineIndex := nonEmptyLineIndex + 1;
      LastLineDecides(seen, line, NonBlank(lines));
      if !line.Text? {
        return Err(nonEmptyLineIndex);
      }
      if nonEmptyLineIndex == 1 {
        if !IsHeader(line.value) {
          return Err(nonEmptyLineIndex);
        }
        parsedHeader := Some(line.value);
        seen := seen + [line];
        continue;
      }
      if IsHeader(line.value) {
        HeaderIsNoSample(line.value);
        return Err(nonEmptyLineIndex);
      }
      if !IsSample(line.value) {
        return Err(nonEmptyLineIndex);
      }
      seen := seen + [line];
    }
    assert lines[..i] == lines;
    return Ok(parsedHeader);
  }

  lemma HeaderIsNoSample(v: Json)
    requires IsHeader(v)
    ensures !IsSample(v)
  {
    if IsSample(v) {
      NoSampleIsHeader(v);
    }
  }

  lemma NextLine(before: seq<Line>, line: Line, after: seq<Line>)
    ensures NonBlank(before + [line]) == NonBlank(before) + if line.Blank? then [] else [line]
    ensures NonBlank(before + [line]) <= NonBlank(before + [line] + after)
  {
    assert (before + [line])[..|before|] == before;
    NonBlankConcat(before + [line], after);
  }

  /** After an accepted prefix, the next non-blank line alone decides how far acceptance reaches. */
  lemma LastLineDecides(seen: seq<Line>, line: Line, all: seq<Line>)
    requires AllOk(seen) && seen + [line] <= all
    ensures AllOk(seen + [line]) <==> LineOk(all, |seen|)
    ensures !LineOk(all, |seen|) ==> !AllOk(all)
    ensures forall i :: 0 <= i < |seen| ==> LineOk(all, i)
  {
    forall i | 0 <= i < |seen|
      ensures LineOk(all, i) && LineOk(seen + [line], i)
    {
      assert LineOk(seen, i) && (seen + [line])[i] == seen[i] == all[i];
    }
    assert (seen + [line])[|seen|] == line == all[|seen|];
    assert LineOk(seen + [line], |seen|) <==> LineOk(all, |seen|);
  }

  lemma {:induction false} NonBlankConcat(a: seq<Line>, b: seq<Line>)
    ensures NonBlank(a + b) == NonBlank(a) + NonBlank(b)
    decreases |b|
  {
    if b == [] {
      assert a + b == a;
    } else {
      assert (a + b)[..|a + b| - 1] == a + b[..|b| - 1];
      NonBlankConcat(a, b[..|b| - 1]);
    }
  }

  lemma AppendOne(lines: seq<Line>, v: Json)
    ensures NonBlank(lines + [Text(v)]) == NonBlank(lines) + [Text(v)]
  {
    assert (lines + [Text(v)])[..|lines|] == lines;
  }

  // ----- The protocol -----

  /** Where one writer stands. */
  datatype Writer =
    | Closed
    | Opened(header: Json)      // file open, lock not yet tried
    | Locked(header: Json)      // lock held, contents not yet checked
    | Ready(header: Json)       // header checked or written

  /** `initial`, `wrote` and `log` record the history: what the file held, the header a writer added, and
      the samples appended since, in order. */
  datatype State = State(
    file: Option<seq<Line>>, lock: Option<nat>, writers: map<nat, Writer>,
    initial: seq<Line>, wrote: Option<Json>, log: seq<Json>)

  datatype Step =
    | Open(writer: nat, header: Json)
    | RefuseHeader(writer: nat, header: Json)
    | TakeLock(writer: nat)
    | LockBusy(writer: nat)
    | Admit(writer: nat)
    | Reject(writer: nat)
    | Append(writer: nat, sample: Json)
    | RefuseSample(writer: nat, sample: Json)
    | Close(writer: nat)
    | Abandon(writer: nat)

  function Lines(s: State): seq<Line> {
    s.file.GetOr([])
  }

  function Move(s: State, w: nat, writer: Writer): State {
    s.(writers := s.writers[w := writer])
  }

  function Release(s: State, w: nat): State {
    Move(s, w, Closed).(lock := if s.lock == Some(w) then None else s.lock)
  }

  ghost predicate Init(s: State) {
    && s.lock == None && s.wrote == None && s.log == []
    && s.initial == Lines(s)
    && (forall w :: w in s.writers ==> s.writers[w].Closed?)
  }

  ghost predicate Next(s: State, step: Step, t: State) {
    && step.writer in s.writers
    && var w := step.writer;
       var me := s.writers[w];
       match step
       case Open(_, header) =>
         me.Closed? && IsHeader(header) && t == Move(s, w, Opened(header)).(file := Some(Lines(s)))
       case RefuseHeader(_, header) => me.Closed? && !IsHeader(header) && t == s
       case TakeLock(_) =>
         me.Opened? && s.lock == None && t == Move(s, w, Locked(me.header)).(lock := Some(w))
       case LockBusy(_) => me.Opened? && s.lock.Some? && t == Move(s, w, Closed)
       case Admit(_) =>
         me.Locked? && WellFormed(Lines(s))
         && var existing := HeaderOf(Lines(s));
            (existing.Some? ==> HeadersAreCompatible(existing.value, me.header))
            && t == if existing.Some? then Move(s, w, Ready(me.header))
                    else Move(s, w, Ready(me.header)).(
                           file := Some(Lines(s) + [Text(me.header)]), wrote := Some(me.header))
       case Reject(_) =>
         me.Locked?
         && (WellFormed(Lines(s)) ==>
               HeaderOf(Lines(s)).Some? && !HeadersAreCompatible(HeaderOf(Lines(s)).value, me.header))
         && t == Release(s, w)
       case Append(_, sample) =>
         me.Ready? && IsSample(sample)
         && t == s.(file := Some(Lines(s) + [Text(sample)]), log := s.log + [sample])
       case RefuseSample(_, sample) => me.Ready? && !IsSample(sample) && t == s
       case Close(_) => me.Ready? && t == Release(s, w)
       case Abandon(_) => !me.Closed? && t == Release(s, w)
  }

  function Texts(values: seq<Json>): (r: seq<Line>)
    ensures |r| == |values|
    ensures forall i :: 0 <= i < |values| ==> r[i] == Text(values[i])
  {
    seq(|values|, i requires 0 <= i < |values| => Text(values[i]))
  }

  function Added(s: State): seq<Line> {
    (if s.wrote.Some? then [Text(s.wrote.value)] else []) + Texts(s.log)
  }

  predicate Holds(writer: Writer) {
    writer.Locked? || writer.Ready?
  }

  ghost predicate WriterOk(s: State, w: nat) {
    && w in s.writers
    && (Holds(s.writers[w]) <==> s.lock == Some(w))
    && (!s.writers[w].Closed? ==> IsHeader(s.writers[w].header))
    && (s.writers[w].Ready? ==>
          && WellFormed(s.initial)
          && HeaderOf(Lines(s)).Some?
          && HeadersAreCompatible(HeaderOf(Lines(s)).value, s.writers[w].header))
  }

  ghost predicate Inv(s: State) {
    && Lines(s) == s.initial + Added(s)
    && (if WellFormed(s.initial) then WellFormed(Lines(s)) else Lines(s) == s.initial)
    && (s.wrote.Some? ==> NonBlank(s.initial) == [])
    && (s.lock.Some? ==> s.lock.value in s.writers)
    && forall w :: w in s.writers ==> WriterOk(s, w)
  }

  /** Appending the right kind of value to a well-formed file keeps it so. */
  lemma AppendKeepsWellFormed(lines: seq<Line>, v: Json)
    requires WellFormed(lines)
    requires if NonBlank(lines) == [] then IsHeader(v) else IsSample(v)
    ensures WellFormed(lines + [Text(v)])
    ensures NonBlank(lines) != [] ==> HeaderOf(lines + [Text(v)]) == HeaderOf(lines)
    ensures NonBlank(lines) == [] ==> HeaderOf(lines + [Text(v)]) == Some(v)
  {
    AppendOne(lines, v);
    var nb := NonBlank(lines);
    LastLineDecides(nb, Text(v), nb + [Text(v)]);
  }

  lemma AppendKeepsInv(s: State, step: Step, t: State)
    requires Inv(s) && Next(s, step, t) && step.Append?
    ensures Inv(t)
  {
    assert WriterOk(s, step.writer);
    AppendKeepsWellFormed(Lines(s), step.sample);
    assert Texts(t.log) == Texts(s.log) + [Text(step.sample)];
    forall w | w in t.writers
      ensures WriterOk(t, w)
    {
      assert WriterOk(s, w);
    }
  }

  lemma AdmitKeepsInv(s: State, step: Step, t: State)
    requires Inv(s) && Next(s, step, t) && step.Admit?
    ensures Inv(t)
  {
    var header := s.writers[step.writer].header;
    assert WriterOk(s, step.writer);
    if HeaderOf(Lines(s)) == None {
      HeaderlessMeansUnwritten(s);
      AppendKeepsWellFormed(Lines(s), header);
      assert Added(s) == [] && Added(t) == [Text(header)];
    } else {
      assert Lines(t) == Lines(s) && Added(t) == Added(s);
      ValidMeansValidAtStart(s);
    }
    forall w | w in t.writers
      ensures WriterOk(t, w)
    {
      assert WriterOk(s, w);
    }
  }

  lemma ValidMeansValidAtStart(s: State)
    requires Inv(s) && WellFormed(Lines(s))
    ensures WellFormed(s.initial)
  {
  }

  /** A well-formed file without a header has no content at all, so nothing was appended yet. */
  lemma HeaderlessMeansUnwritten(s: State)
    requires Inv(s) && WellFormed(Lines(s)) && HeaderOf(Lines(s)) == None
    ensures NonBlank(Lines(s)) == [] && NonBlank(s.initial) == []
    ensures s.wrote == None && s.log == [] && WellFormed(s.initial)
  {
    HeaderlessMeansEmpty(Lines(s));
    NonBlankConcat(s.initial, Added(s));
    NonBlankOfTexts(Added(s));
  }

  lemma HeaderlessMeansEmpty(lines: seq<Line>)
    requires WellFormed(lines)
    ensures NonBlank(lines) == [] <==> HeaderOf(lines) == None
  {
    var nb := NonBlank(lines);
    if 0 < |nb| {
      var ok := LineOk(nb, 0);
    }
  }

  lemma {:induction false} NonBlankOfTexts(lines: seq<Line>)
    requires forall i :: 0 <= i < |lines| ==> lines[i].Text?
    ensures NonBlank(lines) == lines
    decreases |lines|
  {
    if lines != [] {
      NonBlankOfTexts(lines[..|lines| - 1]);
    }
  }

  /** A step that leaves the file alone and moves one writer keeps the invariant if that writer ends well. */
  lemma MoveKeepsInv(s: State, t: State, w: nat)
    requires Inv(s) && w in s.writers && WriterOk(t, w)
    requires Lines(t) == Lines(s) && t.initial == s.initial && t.wrote == s.wrote && t.log == s.log
    requires t.writers == s.writers[w := t.writers[w]]
    requires t.lock == s.lock || (t.lock in {None, Some(w)} && s.lock in {None, Some(w)})
    ensures Inv(t)
  {
    forall x | x in t.writers
      ensures WriterOk(t, x)
    {
      assert WriterOk(s, x);
    }
  }

  lemma QuietStepKeepsInv(s: State, step: Step, t: State)
    requires Inv(s) && Next(s, step, t) && !step.Admit? && !step.Append?
    ensures Inv(t)
  {
    assert WriterOk(s, step.writer);
    if !(step.RefuseHeader? || step.RefuseSample?) {
      MoveKeepsInv(s, t, step.writer);
    }
  }

  lemma StepKeepsInv(s: State, step: Step, t: State)
    requires Inv(s) && Next(s, step, t)
    ensures Inv(t)
  {
    if step.Admit? {
      AdmitKeepsInv(s, step, t);
    } else if step.Append? {
      AppendKeepsInv(s, step, t);
    } else {
      QuietStepKeepsInv(s, step, t);
    }
  }

  // ----- Runs -----

  ghost predicate IsRun(states: seq<State>, steps: seq<Step>) {
    && |states| == |steps| + 1
    && Init(states[0])
    && forall i :: 0 <= i < |steps| ==> Next(states[i], steps[i], states[i + 1])
  }

  lemma {:induction false} RunKeepsInv(states: seq<State>, steps: seq<Step>, n: nat)
    requires IsRun(states, steps) && n < |states|
    ensures Inv(states[n]) && states[n].initial == Lines(states[0])
  {
    if n == 0 {
      assert Added(states[0]) == [];
      assert Lines(states[0]) + [] == Lines(states[0]);
    } else {
      RunKeepsInv(states, steps, n - 1);
      StepKeepsInv(states[n - 1], steps[n - 1], states[n]);
    }
  }

  /** Starting from a missing, empty or valid file, the validator accepts the file after every step: it holds
      the initial lines, at most one header that a writer added to a file without one, and the accepted
      samples in order; no line but the first is a header. */
  lemma FileStaysValid(states: seq<State>, steps: seq<Step>, n: nat)
    requires IsRun(states, steps) && n < |states| && WellFormed(Lines(states[0]))
    ensures var s := states[n];
            && WellFormed(Lines(s))
            && Lines(s) == Lines(states[0]) + Added(s)
            && (s.wrote.Some? ==> HeaderOf(Lines(states[0])) == None && HeaderOf(Lines(s)) == s.wrote)
            && (s.log != [] ==> HeaderOf(Lines(s)).Some?)
            && OnlyFirstIsHeader(NonBlank(Lines(s)))
  {
    var s := states[n];
    RunKeepsInv(states, steps, n);
    NonBlankConcat(s.initial, Added(s));
    NonBlankOfTexts(Added(s));
    HeaderlessMeansEmpty(s.initial);
    HeaderlessMeansEmpty(Lines(s));
    LaterLinesAreNoHeaders(NonBlank(Lines(s)));
  }

  predicate OnlyFirstIsHeader(nonBlank: seq<Line>) {
    forall i :: 0 <= i < |nonBlank| ==> nonBlank[i].Text? && (IsHeader(nonBlank[i].value) <==> i == 0)
  }

  lemma LaterLinesAreNoHeaders(nonBlank: seq<Line>)
    requires AllOk(nonBlank)
    ensures OnlyFirstIsHeader(nonBlank)
  {
    forall i | 0 <= i < |nonBlank|
      ensures nonBlank[i].Text? && (IsHeader(nonBlank[i].value) <==> i == 0)
    {
      assert LineOk(nonBlank, i);
      if i > 0 {
        NoSampleIsHeader(nonBlank[i].value);
      }
    }
  }

  /** A file that is not valid at the start is never touched. */
  lemma InvalidFileStaysUntouched(states: seq<State>, steps: seq<Step>, n: nat)
    requires IsRun(states, steps) && n < |states| && !WellFormed(Lines(states[0]))
    ensures Lines(states[n]) == Lines(states[0])
    ensures forall w :: w in states[n].writers ==> !states[n].writers[w].Ready?
  {
    RunKeepsInv(states, steps, n);
    forall w | w in states[n].writers
      ensures !states[n].writers[w].Ready?
    {
      assert WriterOk(states[n], w);
    }
  }

  /** Every step only appends; only the writer holding the lock appends, and only when it is admitted or
      appends a sample, so refused and rejected opens change nothing; at most one writer holds the lock. */
  lemma WritersAreExclusive(states: seq<State>, steps: seq<Step>, n: nat)
    requires IsRun(states, steps) && n < |steps|
    ensures Lines(states[n]) <= Lines(states[n + 1])
    ensures Lines(states[n]) != Lines(states[n + 1]) ==>
              states[n].lock == Some(steps[n].writer) && (steps[n].Admit? || steps[n].Append?)
    ensures forall v, w ::
              (v in states[n].writers && w in states[n].writers
               && Holds(states[n].writers[v]) && Holds(states[n].writers[w])) ==> v == w
  {
    var s := states[n];
    RunKeepsInv(states, steps, n);
    assert Next(s, steps[n], states[n + 1]);
    forall w | w in s.writers
      ensures Holds(s.writers[w]) <==> s.lock == Some(w)
    {
      assert WriterOk(s, w);
    }
  }
}
