/** The asynchronous logger: callers append to the current buffer, full buffers queue up, and a writer
    thread takes them all at once and gives two of them back as spares.

    One step is one critical section, or one stretch of the writer's own code. */
module AsyncLogger {
  import opened Collections

  type Bytes = seq<char>

  const CAPACITY: nat := 4096 * 1024
  const TOO_MANY: nat := 25

  /** What became of a buffer the writer took, in the order it took them. */
  datatype Piece = Written(bytes: Bytes) | Dropped(bytes: Bytes)

  datatype Writer = Top | Taken | Writing(i: nat) | Recycling

  datatype State = State(
    current: Bytes,
    next: Option<Bytes>,
    buffers: seq<Bytes>,
    spare1: Option<Bytes>,
    spare2: Option<Bytes>,
    batch: seq<Bytes>,        // write_buffers
    writer: Writer,
    total: Bytes,             // history: everything appended, in order
    out: seq<Piece>,          // history
    skipped: seq<Bytes>)      // history: dropped from this batch, behind what is left of it

  datatype Step = Append(log: Bytes) | Rotate | Thin | Write | Recycle

  /** As much of a log as Ring::write puts into a buffer that cannot grow. */
  function Fitting(buffer: Bytes, log: Bytes): Bytes {
    if |buffer| + |log| <= CAPACITY then log
    else if |buffer| <= CAPACITY then log[..CAPACITY - |buffer|]
    else []
  }

  predicate Enabled(s: State, step: Step) {
    match step
    case Append(_) => true
    case Rotate => s.writer.Top?
    case Thin => s.writer.Taken?
    case Write => s.writer.Writing?
    case Recycle => s.writer.Recycling?
  }

  /** The buffer an append goes to: the current one if it has more room than the log needs, otherwise a
      fresh one or the spare. */
  function Target(s: State, log: Bytes): Bytes {
    if CAPACITY - |s.current| > |log| then s.current
    else if s.next.Some? then s.next.value
    else []
  }

  function Stored(s: State, log: Bytes): Bytes {
    Fitting(Target(s, log), log)
  }

  function Apply(s: State, step: Step): State
    requires Enabled(s, step)
  {
    match step
    case Append(log) =>
      var after := s.(current := Target(s, log) + Stored(s, log), total := s.total + Stored(s, log));
      if CAPACITY - |s.current| > |log| then after
      else after.(buffers := s.buffers + [s.current], next := None)
    case Rotate =>
      s.(batch := s.buffers + [s.current], buffers := s.batch,
         current := if s.spare1.Some? then s.spare1.value else [], spare1 := None,
         next := if s.next.None? then s.spare2 else s.next, spare2 := if s.next.None? then None else s.spare2,
         writer := Taken)
    case Thin =>
      if |s.batch| > TOO_MANY then s.(batch := s.batch[..2], skipped := s.batch[2..], writer := Writing(0))
      else s.(writer := Writing(0))
    case Write =>
      if s.writer.i < |s.batch| then s.(out := s.out + [Written(s.batch[s.writer.i])], writer := Writing(s.writer.i + 1))
      else s.(out := s.out + Drops(s.skipped), skipped := [], writer := Recycling)
    case Recycle => TakeBack(s)
  }

  function Drops(buffers: seq<Bytes>): (r: seq<Piece>)
    ensures |r| == |buffers| && forall k :: 0 <= k < |r| ==> r[k] == Dropped(buffers[k])
  {
    if buffers == [] then [] else Drops(buffers[..|buffers| - 1]) + [Dropped(buffers[|buffers| - 1])]
  }

  /** At most two buffers are kept; those that are missing as spares are taken from the back, emptied. */
  function TakeBack(s: State): State {
    var kept := if |s.batch| > 2 then s.batch[..2] else s.batch;
    var after1 := if s.spare1.None? && kept != [] then kept[..|kept| - 1] else kept;
    s.(spare1 := if s.spare1.None? && kept != [] then Some([]) else s.spare1,
       spare2 := if s.spare2.None? && after1 != [] then Some([]) else s.spare2,
       batch := [], writer := Top)
  }

  /** The assertions of thread_handle. */
  predicate Asserts(s: State, step: Step)
    requires Enabled(s, step)
  {
    match step
    case Rotate => s.spare1 == Some([]) && s.spare2 == Some([]) && s.batch == []
    case Thin => s.batch != []
    case Recycle => |s.batch| >= (if s.spare1.None? then 1 else 0) + (if s.spare2.None? then 1 else 0)
    case _ => true
  }

  // ---- What holds in every state ---------------------------------------------------------------

  function History(out: seq<Piece>): Bytes {
    if out == [] then [] else History(out[..|out| - 1]) + out[|out| - 1].bytes
  }

  /** What the writer has taken and not yet written. */
  function Left(s: State): seq<Bytes> {
    match s.writer
    case Top => []
    case Taken => s.batch
    case Writing(i) => if i <= |s.batch| then s.batch[i..] + s.skipped else s.skipped
    case Recycling => s.skipped
  }

  /** The file and what was dropped, the writer's batch, the full buffers and the current one are, in this
      order, all that was appended. */
  predicate Conserved(s: State) {
    History(s.out) + Concat(Left(s)) + Concat(s.buffers) + s.current == s.total
  }

  predicate BuffersOk(s: State) {
    && |s.current| <= CAPACITY
    && (s.next.Some? ==> s.next.value == [])
    && (s.next.None? ==> s.buffers != [])
    && (s.spare1.Some? ==> s.spare1.value == []) && (s.spare2.Some? ==> s.spare2.value == [])
    && (s.writer.Top? ==> s.spare1.Some? && s.spare2.Some? && s.batch == [])
    && (!s.writer.Top? ==> |s.batch| >= (if s.spare2.None? then 2 else 1))
    && (s.writer.Writing? ==> s.writer.i <= |s.batch|)
    && (s.writer.Top? || s.writer.Taken? || s.writer.Recycling? ==> s.skipped == [])
  }

  ghost predicate Inv(s: State) {
    BuffersOk(s) && Conserved(s)
  }

  predicate Init(s: State) {
    s == State([], Some([]), [], Some([]), Some([]), [], Top, [], [], [])
  }

  lemma BuffersKeep(s: State, step: Step)
    requires BuffersOk(s) && Enabled(s, step)
    ensures BuffersOk(Apply(s, step)) && Asserts(s, step)
  {
  }

  /** A log is stored whole exactly if one buffer can hold it. */
  lemma WholeExactly(s: State, log: Bytes)
    requires BuffersOk(s)
    ensures Stored(s, log) == log <==> |log| <= 4_194_304
  {
  }

  // ---- Conservation ----------------------------------------------------------------------------

  lemma HistoryLast(out: seq<Piece>, p: Piece)
    ensures History(out + [p]) == History(out) + p.bytes
  {
    assert (out + [p])[..|out|] == out;
  }

  lemma Associates<T>(a: seq<T>, b: seq<T>, c: seq<T>)
    ensures a + b + c == a + (b + c)
  {
  }

  lemma {:induction false} HistoryDrops(out: seq<Piece>, buffers: seq<Bytes>)
    ensures History(out + Drops(buffers)) == History(out) + Concat(buffers)
    decreases |buffers|
  {
    if buffers == [] {
      assert out + Drops(buffers) == out;
    } else {
      var n := |buffers| - 1;
      var drops, last := Drops(buffers[..n]), Dropped(buffers[n]);
      assert Concat(buffers) == Concat(buffers[..n]) + last.bytes && Drops(buffers) == drops + [last];
      hide History, Drops, Concat;
      HistoryDrops(out, buffers[..n]);
      HistoryLast(out + drops, last);
      Associates(out, drops, [last]);
      Associates(History(out), Concat(buffers[..n]), last.bytes);
    }
  }

  lemma AppendConserves(s: State, log: Bytes)
    requires Inv(s)
    ensures Conserved(Apply(s, Append(log)))
  {
    hide Concat, History;
    var after := Apply(s, Append(log));
    assert Left(after) == Left(s);
    if CAPACITY - |s.current| <= |log| {
      ConcatLast(s.buffers, s.current);
      assert after.current == Stored(s, log);
      Glue(History(s.out) + Concat(Left(s)), Concat(s.buffers), s.current, after.current);
    } else {
      Glue(History(s.out) + Concat(Left(s)), Concat(s.buffers), s.current, log);
    }
  }

  lemma Glue(a: Bytes, b: Bytes, c: Bytes, d: Bytes)
    ensures a + (b + c) + d == a + b + c + d && a + b + (c + d) == a + b + c + d
  {
  }

  lemma RotateConserves(s: State)
    requires Inv(s) && Enabled(s, Rotate)
    ensures Conserved(Apply(s, Rotate))
  {
    hide Concat, History;
    ConcatLast(s.buffers, s.current);
    ConcatNone<char>();
    Nothing(History(s.out), Concat(s.buffers), s.current);
  }

  lemma Nothing(a: Bytes, b: Bytes, c: Bytes)
    ensures a + (b + c) + [] + [] == a + [] + b + c
  {
  }

  lemma WriteConserves(s: State)
    requires Inv(s) && Enabled(s, Write)
    ensures Conserved(Apply(s, Write))
  {
    hide Concat, History;
    var after, i := Apply(s, Write), s.writer.i;
    var rest := Concat(s.buffers) + s.current;
    if i < |s.batch| {
      var b, left := s.batch[i], s.batch[i + 1..] + s.skipped;
      assert Left(s) == [b] + left;
      ConcatFirst(b, left);
      HistoryLast(s.out, Written(b));
      Glue(History(s.out), b, Concat(left), rest);
    } else {
      assert Left(s) == s.skipped && Left(after) == [];
      HistoryDrops(s.out, s.skipped);
      ConcatNone<char>();
    }
  }

  lemma StepKeeps(s: State, step: Step)
    requires Inv(s) && Enabled(s, step)
    ensures Inv(Apply(s, step)) && Asserts(s, step)
  {
    BuffersKeep(s, step);
    hide Concat, History;
    match step
    case Append(log) => AppendConserves(s, log);
    case Rotate => RotateConserves(s);
    case Thin => assert Left(Apply(s, Thin)) == Left(s);
    case Write => WriteConserves(s);
    case Recycle => assert Left(Apply(s, Recycle)) == Left(s);
  }

  // ---- Every run -------------------------------------------------------------------------------

  /** Only a batch of more than 25 buffers is thinned, and its first two are still written. */
  predicate DropsRightly(s: State, step: Step)
    requires Enabled(s, step)
  {
    var after := Apply(s, step);
    && (step.Thin? ==> after.batch == (if |s.batch| > 25 then s.batch[..2] else s.batch)
                       && after.batch + after.skipped == s.batch)
    && (forall k :: |s.out| <= k < |after.out| && after.out[k].Dropped? ==> after.out[k].bytes in s.skipped)
    && s.out <= after.out
  }

  function One(b: Option<Bytes>): nat {
    if b.Some? then 1 else 0
  }

  /** How many buffers there are. */
  function Held(s: State): int {
    1 + One(s.next) + |s.buffers| + One(s.spare1) + One(s.spare2) + |s.batch|
  }

  /** A buffer is allocated only when the current one is full and there is no other at hand; and buffers are
      given up only with what is dropped, or when the two in reserve are there. */
  predicate Frugal(s: State, step: Step)
    requires Enabled(s, step)
  {
    var after := Apply(s, step);
    match step
    case Append(log) => Held(after) == Held(s) + if |s.current| + |log| < 4_194_304 || s.next.Some? then 0 else 1
    case Thin => Held(after) == Held(s) - |after.skipped|
    case Recycle => after.spare1.Some? && after.spare2.Some? && Held(after) == 3 + One(s.next) + |s.buffers|
    case _ => Held(after) == Held(s)
  }

  ghost predicate Safe(s: State, run: seq<Step>)
    decreases |run|
  {
    && Conserved(s) && BuffersOk(s)
    && (run != [] && Enabled(s, run[0]) ==>
          Asserts(s, run[0]) && DropsRightly(s, run[0]) && Frugal(s, run[0]) && Safe(Apply(s, run[0]), run[1..]))
  }

  lemma StepDropsRightly(s: State, step: Step)
    requires Inv(s) && Enabled(s, step)
    ensures DropsRightly(s, step)
  {
    hide Conserved;
    if step.Thin? {
      assert |s.batch| > TOO_MANY ==> s.batch == s.batch[..2] + s.batch[2..];
    }
  }

  lemma StepFrugal(s: State, step: Step)
    requires BuffersOk(s) && Enabled(s, step)
    ensures Frugal(s, step)
  {
  }

  lemma {:induction false} RunSafe(s: State, run: seq<Step>)
    requires Inv(s)
    ensures Safe(s, run)
    decreases |run|
  {
    if run != [] && Enabled(s, run[0]) {
      StepKeeps(s, run[0]);
      StepDropsRightly(s, run[0]);
      StepFrugal(s, run[0]);
      hide Frugal, Conserved, BuffersOk, DropsRightly;
      RunSafe(Apply(s, run[0]), run[1..]);
    }
  }

  /** For any logs and any interleaving of callers and writer. */
  lemma EveryRunSafe(s: State, run: seq<Step>)
    requires Init(s)
    ensures Safe(s, run)
  {
    RunSafe(s, run);
  }

  // ---- What stopping loses -----------------------------------------------------------------------

  /** The writer leaves its loop only at the top.  What has not been written or dropped by then is never
      written: exactly what is in the full buffers and the current one. */
  lemma StopLosesExactly(s: State)
    requires Inv(s) && s.writer.Top?
    ensures History(s.out) + (Concat(s.buffers) + s.current) == s.total
    ensures History(s.out) == s.total <==> s.current == [] && Concat(s.buffers) == []
  {
    hide Concat, History;
    ConcatNone<char>();
    var file, rest := History(s.out), Concat(s.buffers) + s.current;
    assert file + rest == s.total by { Bracket(file, Concat(s.buffers), s.current); }
    assert file == file + rest <==> |rest| == 0;
  }

  lemma Bracket(a: Bytes, b: Bytes, c: Bytes)
    ensures a + [] + b + c == a + (b + c)
  {
  }

  /** For instance a log that is appended and not followed by a rotation. */
  lemma StopExample(s: State, log: Bytes)
    requires Init(s) && 0 < |log| < CAPACITY
    ensures var after := Apply(s, Append(log)); after.writer.Top? && after.total == log && History(after.out) == []
  {
    assert [] + log == log;
  }

  // ---- What was asked for ------------------------------------------------------------------------

  ghost predicate Runs(s: State, run: seq<Step>)
    decreases |run|
  {
    run == [] || (Enabled(s, run[0]) && Runs(Apply(s, run[0]), run[1..]))
  }

  ghost function After(s: State, run: seq<Step>): State
    requires Runs(s, run)
    decreases |run|
  {
    if run == [] then s else After(Apply(s, run[0]), run[1..])
  }

  /** The part of an appended log that one buffer holds. */
  function Kept(step: Step): Bytes {
    if step.Append? then step.log[..Min(|step.log|, 4_194_304)] else []
  }

  /** What the calls of a run append. */
  function Logs(run: seq<Step>): Bytes {
    if run == [] then [] else Kept(run[0]) + Logs(run[1..])
  }

  lemma StepStores(s: State, step: Step)
    requires BuffersOk(s) && Enabled(s, step)
    ensures Apply(s, step).total == s.total + Kept(step)
  {
  }

  /** What was appended is what the calls of the run asked for, in their order. */
  lemma {:induction false} StoresAllLogs(s: State, run: seq<Step>)
    requires Inv(s) && Runs(s, run)
    ensures After(s, run).total == s.total + Logs(run) && Inv(After(s, run))
    decreases |run|
  {
    if run != [] {
      StepStores(s, run[0]);
      StepKeeps(s, run[0]);
      hide Inv, Apply, Enabled, Kept;
      StoresAllLogs(Apply(s, run[0]), run[1..]);
      Associates(s.total, Kept(run[0]), Logs(run[1..]));
    }
  }

  lemma Then(s: State, step: Step, rest: seq<Step>) returns (run: seq<Step>)
    requires Enabled(s, step) && Runs(Apply(s, step), rest)
    ensures run == [step] + rest && Runs(s, run) && After(s, run) == After(Apply(s, step), rest)
  {
    run := [step] + rest;
    assert run[1..] == rest;
  }

  lemma {:induction false} Joined(s: State, first: seq<Step>, second: seq<Step>) returns (run: seq<Step>)
    requires Runs(s, first) && Runs(After(s, first), second)
    ensures run == first + second && Runs(s, run) && After(s, run) == After(After(s, first), second)
    decreases |first|
  {
    if first == [] {
      run := second;
      assert first + second == second;
    } else {
      var rest := Joined(Apply(s, first[0]), first[1..], second);
      run := Then(s, first[0], rest);
      assert first == [first[0]] + first[1..];
      assert run == first + second;
    }
  }

  /** What the writer does next, and how far it is from the top of its loop. */
  function Next(s: State): (step: Step)
    ensures Enabled(s, step) && !step.Append?
  {
    match s.writer
    case Top => Rotate
    case Taken => Thin
    case Writing(_) => Write
    case Recycling => Recycle
  }

  function ToTop(s: State): nat
    requires BuffersOk(s)
  {
    match s.writer
    case Top => 0
    case Taken => |s.batch| + 3
    case Writing(i) => |s.batch| - i + 2
    case Recycling => 1
  }

  lemma NextWrites(s: State)
    requires BuffersOk(s) && !s.writer.Top?
    ensures
      var after := Apply(s, Next(s));
      && BuffersOk(after) && ToTop(after) < ToTop(s)
      && after.total == s.total && after.buffers == s.buffers && after.current == s.current
  {
    BuffersKeep(s, Next(s));
  }

  lemma {:induction false} WriterFinishes(s: State) returns (run: seq<Step>)
    requires Inv(s)
    ensures Runs(s, run) && After(s, run).writer.Top? && Inv(After(s, run))
    ensures forall i :: 0 <= i < |run| ==> !run[i].Append?
    ensures var after := After(s, run); after.total == s.total && after.buffers == s.buffers && after.current == s.current
    decreases ToTop(s)
  {
    if s.writer.Top? {
      run := [];
    } else {
      var step := Next(s);
      StepKeeps(s, step);
      NextWrites(s);
      hide Conserved, BuffersOk, Apply, Enabled, ToTop, Next;
      var rest := WriterFinishes(Apply(s, step));
      run := Then(s, step, rest);
    }
  }

  /** A round of the writer that starts at the top of its loop. */
  lemma WholeRound(top: State) returns (run: seq<Step>)
    requires Inv(top) && top.writer.Top?
    ensures Runs(top, run) && forall i :: 0 <= i < |run| ==> !run[i].Append?
    ensures var after := After(top, run); after.writer.Top? && History(after.out) == top.total
  {
    StepKeeps(top, Rotate);
    var taken := Apply(top, Rotate);
    assert taken.total == top.total && taken.buffers == [] && taken.current == [];
    hide Concat, History, Apply;
    var rest := WriterFinishes(taken);
    ConcatNone<char>();
    StopLosesExactly(After(taken, rest));
    hide After;
    run := Then(top, Rotate, rest);
  }

  /** After any run the writer, left alone for the rest of its round and one more, has written or dropped
      all that was asked for. */
  lemma WriterFlushes(s: State, run: seq<Step>) returns (more: seq<Step>)
    requires Init(s) && Runs(s, run)
    ensures Runs(After(s, run), more) && forall i :: 0 <= i < |more| ==> !more[i].Append?
    ensures
      var after := After(After(s, run), more);
      after.writer.Top? && History(after.out) == Logs(run)
  {
    StoresAllLogs(s, run);
    var now := After(s, run);
    assert now.total == Logs(run);
    hide Concat, History, Logs, After, Runs, Inv;
    var first := WriterFinishes(now);
    var round := WholeRound(After(now, first));
    more := Joined(now, first, round);
  }
}
