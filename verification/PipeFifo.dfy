/**
 * One reader and one writer on a pipe (pipe_read and pipe_write of user/lib/pipe.c), interleaved at
 * every load and store of the shared page. p_rpos and p_wpos are free-running 32-bit counters.
 */
module PipeFifo {
  import opened Common

  const BY2PIPE: nat := 32
  const WORD: nat := 0x1_0000_0000

  // Where the reader stands; i bytes of the n asked for are in its buffer.
  datatype Reader =
    | RIdle
    | RTest(n: nat, i: nat)                      // at the head of the for loop
    | RLoadW(n: nat, i: nat, r: nat)             // p_rpos loaded, p_wpos next
    | RIndex(n: nat, i: nat)                     // not empty: load p_rpos again for the index
    | RByte(n: nat, i: nat, r: nat)              // load p_buf[r % BY2PIPE]
    | RAgain(n: nat, i: nat)                     // byte stored in rbuf[i]: load p_rpos for the increment
    | RBump(n: nat, i: nat, r: nat)              // store p_rpos

  datatype Writer =
    | WIdle
    | WTest(data: seq<Byte>, i: nat)
    | WLoadR(data: seq<Byte>, i: nat, w: nat)
    | WIndex(data: seq<Byte>, i: nat)
    | WByte(data: seq<Byte>, i: nat, w: nat)
    | WAgain(data: seq<Byte>, i: nat)
    | WBump(data: seq<Byte>, i: nat, w: nat)

  // The shared page, the two programs, and the history: bytes stored in the ring so far, bytes read
  // so far, where the current read and write calls started, and how many increments of each counter
  // happened.
  datatype State = State(rpos: nat, wpos: nat, buf: seq<Byte>, reader: Reader, writer: Writer,
                         put: seq<Byte>, got: seq<Byte>, start: nat, wstart: nat, taken: nat, sent: nat)

  datatype Step =
    | CallRead(n: nat)
    | CallWrite(data: seq<Byte>)
    | Read(closed: bool)      // closed: what _pipe_is_closed answers, if it is asked
    | Write(closed: bool)

  predicate Enabled(s: State, step: Step) {
    match step
    case CallRead(n) => s.reader.RIdle?
    case CallWrite(data) => s.writer.WIdle?
    case Read(closed) => !s.reader.RIdle? && |s.buf| == BY2PIPE
    case Write(closed) => !s.writer.WIdle? && |s.buf| == BY2PIPE && s.writer.i <= |s.writer.data|
                          && (s.writer.WByte? ==> s.writer.i < |s.writer.data|)
  }

  // The unsigned difference of two counters.
  function Distance(w: nat, r: nat): nat { (w + WORD - r) % WORD }

  // A counter after an increment, in 32 bits.
  function NextPos(p: nat): nat { (p + 1) % WORD }

  // One load or store of pipe_read.
  function ReadStep(s: State, closed: bool): State
    requires !s.reader.RIdle? && |s.buf| == BY2PIPE
  {
    match s.reader
    case RIdle => s
    case RTest(n, i) =>
      if i < n then s.(reader := RLoadW(n, i, s.rpos)) else s.(reader := RIdle)
    case RLoadW(n, i, r) =>
      if r == s.wpos then
        if closed || i > 0 then s.(reader := RIdle) else s.(reader := RTest(n, i))
      else s.(reader := RIndex(n, i))
    case RIndex(n, i) => s.(reader := RByte(n, i, s.rpos))
    case RByte(n, i, r) => s.(reader := RAgain(n, i), got := s.got + [s.buf[r % BY2PIPE]])
    case RAgain(n, i) => s.(reader := RBump(n, i, s.rpos))
    case RBump(n, i, r) => s.(reader := RTest(n, i + 1), rpos := NextPos(r), taken := s.taken + 1)
  }

  // One load or store of pipe_write; the subtraction wraps.
  function WriteStep(s: State, closed: bool): State
    requires !s.writer.WIdle? && |s.buf| == BY2PIPE && s.writer.i <= |s.writer.data|
    requires s.writer.WByte? ==> s.writer.i < |s.writer.data|
  {
    match s.writer
    case WIdle => s
    case WTest(data, i) =>
      if i < |data| then s.(writer := WLoadR(data, i, s.wpos)) else s.(writer := WIdle)
    case WLoadR(data, i, w) =>
      if Distance(w, s.rpos) == BY2PIPE then
        if closed then s.(writer := WIdle) else s.(writer := WTest(data, i))
      else s.(writer := WIndex(data, i))
    case WIndex(data, i) => s.(writer := WByte(data, i, s.wpos))
    case WByte(data, i, w) =>
      s.(writer := WAgain(data, i), buf := s.buf[w % BY2PIPE := data[i]], put := s.put + [data[i]])
    case WAgain(data, i) => s.(writer := WBump(data, i, s.wpos))
    case WBump(data, i, w) => s.(writer := WTest(data, i + 1), wpos := NextPos(w), sent := s.sent + 1)
  }

  function Next(s: State, step: Step): State
    requires Enabled(s, step)
  {
    match step
    case CallRead(n) => s.(reader := RTest(n, 0), start := |s.got|)
    case CallWrite(data) => s.(writer := WTest(data, 0), wstart := |s.put|)
    case Read(closed) => ReadStep(s, closed)
    case Write(closed) => WriteStep(s, closed)
  }

  function EmptyRing(): seq<Byte> { seq(BY2PIPE, i => 0) }

  const INIT := State(0, 0, EmptyRing(), RIdle, WIdle, [], [], 0, 0, 0, 0)

  // ------------------------------------------------------------------ the invariant

  ghost predicate ReaderOk(s: State) {
    match s.reader
    case RIdle => s.taken == |s.got|
    case RTest(n, i) => s.taken == |s.got| && |s.got| == s.start + i && i <= n
    case RLoadW(n, i, r) => s.taken == |s.got| && |s.got| == s.start + i && r == s.rpos && i < n
    case RIndex(n, i) => s.taken == |s.got| && |s.got| == s.start + i && s.taken < s.sent && i < n
    case RByte(n, i, r) => s.taken == |s.got| && |s.got| == s.start + i && s.taken < s.sent && r == s.rpos && i < n
    case RAgain(n, i) => s.taken + 1 == |s.got| && |s.got| == s.start + i + 1 && s.taken < s.sent && i < n
    case RBump(n, i, r) =>
      s.taken + 1 == |s.got| && |s.got| == s.start + i + 1 && s.taken < s.sent && r == s.rpos && i < n
  }

  ghost predicate WriterOk(s: State) {
    match s.writer
    case WIdle => s.sent == |s.put|
    case WTest(data, i) => s.sent == |s.put| && i <= |data|
    case WLoadR(data, i, w) => s.sent == |s.put| && w == s.wpos && i < |data|
    case WIndex(data, i) => s.sent == |s.put| && s.sent - s.taken < BY2PIPE && i < |data|
    case WByte(data, i, w) => s.sent == |s.put| && s.sent - s.taken < BY2PIPE && w == s.wpos && i < |data|
    case WAgain(data, i) => s.sent + 1 == |s.put| && s.sent - s.taken < BY2PIPE && i < |data|
    case WBump(data, i, w) => s.sent + 1 == |s.put| && s.sent - s.taken < BY2PIPE && w == s.wpos && i < |data|
  }

  // What the current write call has stored is the beginning of its data.
  ghost predicate Stored(s: State) {
    s.writer.WIdle? ||
    (var n := s.writer.i + if s.writer.WAgain? || s.writer.WBump? then 1 else 0;
     n <= |s.writer.data| && s.wstart + n == |s.put| && s.put[s.wstart..] == s.writer.data[..n])
  }

  // The ring holds the bytes between the two positions.
  ghost predicate RingOk(s: State) {
    && |s.buf| == BY2PIPE
    && s.rpos == s.taken % WORD && s.wpos == s.sent % WORD
    && s.taken <= s.sent <= s.taken + BY2PIPE
    && s.start <= |s.got| <= s.sent <= |s.put| <= s.taken + BY2PIPE
    && (forall k :: s.taken <= k < |s.put| ==> s.buf[k % BY2PIPE] == s.put[k])
    && s.got == s.put[..|s.got|]
  }

  ghost predicate Inv(s: State) {
    RingOk(s) && ReaderOk(s) && WriterOk(s) && Stored(s)
  }

  // ------------------------------------------------------------------ arithmetic of the wrapping counters

  lemma WrapIndex(n: nat)
    ensures n % WORD % BY2PIPE == n % BY2PIPE
  {
    var k, m := n / WORD, n % WORD;
    assert n == 32 * (0x800_0000 * k + m / 32) + m % 32;
  }

  // The 32-bit difference of the counters is their real distance.
  lemma WrapDistance(taken: nat, sent: nat)
    requires taken <= sent <= taken + BY2PIPE
    ensures (sent % WORD + WORD - taken % WORD) % WORD == sent - taken
    ensures taken % WORD == sent % WORD <==> taken == sent
  {
    var q := sent / WORD - taken / WORD;
    assert sent - taken == WORD * q + (sent % WORD - taken % WORD);
    assert 0 <= q <= 1;
  }

  lemma WrapNext(n: nat)
    ensures (n % WORD + 1) % WORD == (n + 1) % WORD
  {
  }

  // Two positions less than a buffer apart use different cells.
  lemma CellsApart(a: nat, b: nat)
    requires a < b < a + BY2PIPE
    ensures a % BY2PIPE != b % BY2PIPE
  {
  }

  // ------------------------------------------------------------------ every step keeps it

  lemma TakeByte(s: State)
    requires Inv(s) && s.reader.RByte?
    ensures Inv(ReadStep(s, false))
  {
    WrapIndex(s.taken);
    assert s.buf[s.taken % BY2PIPE] == s.put[s.taken];
    assert s.put[..s.taken + 1] == s.put[..s.taken] + [s.put[s.taken]];
  }

  lemma ReadKeeps(s: State, closed: bool)
    requires Inv(s) && !s.reader.RIdle?
    ensures Inv(ReadStep(s, closed))
  {
    if s.reader.RByte? {
      TakeByte(s);
    } else if s.reader.RBump? {
      WrapNext(s.taken);
    } else {
      WrapDistance(s.taken, s.sent);
    }
  }

  lemma PutByte(s: State)
    requires Inv(s) && s.writer.WByte?
    ensures Inv(WriteStep(s, false))
  {
    WrapIndex(s.sent);
    var r := WriteStep(s, false);
    assert r.buf == s.buf[s.sent % BY2PIPE := r.put[s.sent]];
    forall k | s.taken <= k < |r.put| ensures r.buf[k % BY2PIPE] == r.put[k] {
      if k < s.sent {
        CellsApart(k, s.sent);
      }
    }
    assert r.put[..|s.got|] == s.put[..|s.got|];
    assert r.put[s.wstart..] == s.put[s.wstart..] + [s.writer.data[s.writer.i]];
  }

  lemma BumpWrite(s: State)
    requires Inv(s) && s.writer.WBump?
    ensures Inv(WriteStep(s, false))
  {
    WrapNext(s.sent);
  }

  // The steps that only load.
  lemma LoadForWrite(s: State, closed: bool)
    requires Inv(s) && !s.writer.WIdle? && !s.writer.WByte? && !s.writer.WBump?
    ensures Inv(WriteStep(s, closed))
  {
    var r := WriteStep(s, closed);
    if s.writer.WLoadR? {
      WrapDistance(s.taken, s.sent);
    }
    assert WriterOk(r) && Stored(r);
    assert RingOk(r) && ReaderOk(r) by {
      assert r == s.(writer := r.writer);
      hide WriteStep;
    }
  }

  lemma WriteKeeps(s: State, closed: bool)
    requires Inv(s) && !s.writer.WIdle?
    ensures Enabled(s, Write(closed)) && Inv(WriteStep(s, closed))
  {
    if s.writer.WByte? {
      PutByte(s);
    } else if s.writer.WBump? {
      BumpWrite(s);
    } else {
      LoadForWrite(s, closed);
    }
  }

  lemma NextKeeps(s: State, step: Step)
    requires Inv(s) && Enabled(s, step)
    ensures Inv(Next(s, step))
  {
    match step
    case CallRead(n) =>
    case CallWrite(data) =>
    case Read(closed) => ReadKeeps(s, closed);
    case Write(closed) => WriteKeeps(s, closed);
  }

  // ------------------------------------------------------------------ every interleaving

  // A step that is not enabled is skipped.
  function Move(s: State, step: Step): State { if Enabled(s, step) then Next(s, step) else s }

  // The state after a run.
  function Run(s: State, steps: seq<Step>): State
    decreases |steps|
  {
    if steps == [] then s else Run(Move(s, steps[0]), steps[1..])
  }

  lemma {:induction false} RunKeeps(s: State, steps: seq<Step>)
    requires Inv(s)
    ensures Inv(Run(s, steps))
    decreases |steps|
  {
    if steps != [] {
      if Enabled(s, steps[0]) {
        NextKeeps(s, steps[0]);
      }
      RunKeeps(Move(s, steps[0]), steps[1..]);
    }
  }

  /**
   * First in, first out: along every interleaving the bytes read are a prefix of the bytes written,
   * the 32-bit distance of the counters is the number of bytes in the ring, and nothing is lost:
   * the ring holds exactly the bytes between the two positions, however often the counters wrap.
   */
  lemma Fifo(steps: seq<Step>)
    ensures var s := Run(INIT, steps);
      && s.got <= s.put
      && (s.wpos + WORD - s.rpos) % WORD == s.sent - s.taken && 0 <= s.sent - s.taken <= BY2PIPE
      && |s.buf| == BY2PIPE
      && (forall k :: s.taken <= k < |s.put| ==> s.buf[k % BY2PIPE] == s.put[k])
      && (s.reader.RIdle? && s.writer.WIdle? && s.rpos == s.wpos ==> s.got == s.put)
  {
    RunKeeps(INIT, steps);
    var s := Run(INIT, steps);
    WrapDistance(s.taken, s.sent);
  }

  // ------------------------------------------------------------------ the calls, as their callers see them

  // The state after the first j steps.
  function At(steps: seq<Step>, j: nat): State
    requires j <= |steps|
  {
    Run(INIT, steps[..j])
  }

  lemma {:induction false} RunOn(s: State, steps: seq<Step>, step: Step)
    ensures Run(s, steps + [step]) == Move(Run(s, steps), step)
    decreases |steps|
  {
    hide Move;
    if steps == [] {
      assert steps + [step] == [step] && [step][1..] == [];
    } else {
      assert (steps + [step])[1..] == steps[1..] + [step];
      RunOn(Move(s, steps[0]), steps[1..], step);
    }
  }

  lemma AtNext(steps: seq<Step>, j: nat)
    requires j < |steps|
    ensures Inv(At(steps, j)) && At(steps, j + 1) == Move(At(steps, j), steps[j])
  {
    hide Move, Inv;
    RunOk(steps[..j]);
    assert steps[..j + 1] == steps[..j] + [steps[j]];
    RunOn(INIT, steps[..j], steps[j]);
  }

  lemma RunOk(steps: seq<Step>)
    ensures Inv(Run(INIT, steps))
  {
    RunKeeps(INIT, steps);
  }

  // Step k starts a read call, which is still going on after all the steps.
  ghost predicate Reading(steps: seq<Step>, k: nat, n: nat) {
    && k < |steps| && steps[k] == CallRead(n) && At(steps, k).reader.RIdle?
    && forall j :: k < j <= |steps| ==> !At(steps, j).reader.RIdle?
  }

  ghost predicate Writing(steps: seq<Step>, k: nat, data: seq<Byte>) {
    && k < |steps| && steps[k] == CallWrite(data) && At(steps, k).writer.WIdle?
    && forall j :: k < j <= |steps| ==> !At(steps, j).writer.WIdle?
  }

  // A call keeps its argument and its start until it ends.
  lemma {:induction false} ReadingFrom(steps: seq<Step>, k: nat, n: nat, j: nat)
    requires Reading(steps, k, n) && k < j <= |steps|
    ensures At(steps, j).reader.n == n && At(steps, j).start == |At(steps, k).got|
    decreases j
  {
    AtNext(steps, j - 1);
    if j > k + 1 {
      hide At;
      ReadingFrom(steps, k, n, j - 1);
    }
  }

  lemma {:induction false} WritingFrom(steps: seq<Step>, k: nat, data: seq<Byte>, j: nat)
    requires Writing(steps, k, data) && k < j <= |steps|
    ensures At(steps, j).writer.data == data && At(steps, j).wstart == |At(steps, k).put|
    decreases j
  {
    AtNext(steps, j - 1);
    if j > k + 1 {
      hide At;
      WritingFrom(steps, k, data, j - 1);
    }
  }

  // Bytes once read or written stay, in every step of a run.
  lemma {:induction false} LogsGrow(steps: seq<Step>, j: nat, k: nat)
    requires j <= k <= |steps|
    ensures At(steps, j).got <= At(steps, k).got && At(steps, j).put <= At(steps, k).put
    decreases k
  {
    if j < k {
      AtNext(steps, k - 1);
      hide At;
      LogsGrow(steps, j, k - 1);
    }
  }

  /**
   * A call of pipe_read for n bytes, along every run: when it ends, it has read the next i <= n bytes
   * of the stream. It has all n, or it found the ring empty and had some already or was told closed.
   */
  lemma ReadCall(steps: seq<Step>, k: nat, n: nat, closed: bool)
    requires Reading(steps, k, n) && Move(At(steps, |steps|), Read(closed)).reader.RIdle?
    ensures var s, t := At(steps, k), At(steps, |steps|); var i := |t.got| - |s.got|;
      && 0 <= i <= n && |t.got| <= |t.put| && t.got == s.got + t.put[|s.got|..|t.got|]
      && (i == n || (t.rpos == t.wpos && (i > 0 || closed)))
  {
    ReadingFrom(steps, k, n, |steps|);
    LogsGrow(steps, k, |steps|);
    assert steps[..|steps|] == steps;
    var s, t := At(steps, k), At(steps, |steps|);
    RunOk(steps);
    hide At;
    assert t.got == t.got[..|s.got|] + t.got[|s.got|..];
  }

  /**
   * A call of pipe_write, along every run: when it ends, it has appended data to the stream, or a part
   * from its start if it was told closed while the ring was full.
   */
  lemma WriteCall(steps: seq<Step>, k: nat, data: seq<Byte>, closed: bool)
    requires Writing(steps, k, data) && Move(At(steps, |steps|), Write(closed)).writer.WIdle?
    ensures var s, t := At(steps, k), At(steps, |steps|); var i := |t.put| - |s.put|;
      && 0 <= i <= |data| && t.put == s.put + data[..i]
      && (i == |data| || (closed && t.sent - t.taken == BY2PIPE))
  {
    WritingFrom(steps, k, data, |steps|);
    LogsGrow(steps, k, |steps|);
    assert steps[..|steps|] == steps;
    RunOk(steps);
    hide Inv, At, Move, Run;
    var s, t := At(steps, k), At(steps, |steps|);
    WriteEnds(t, closed);
    assert t.put == t.put[..|s.put|] + t.put[|s.put|..];
  }

  lemma WriteEnds(t: State, closed: bool)
    requires Inv(t) && !t.writer.WIdle? && Move(t, Write(closed)).writer.WIdle?
    ensures t.writer.i <= |t.writer.data| && t.wstart + t.writer.i == |t.put| && t.put[t.wstart..] == t.writer.data[..t.writer.i]
    ensures t.writer.i == |t.writer.data| || (closed && t.sent - t.taken == BY2PIPE)
  {
    WrapDistance(t.taken, t.sent);
  }

  // ---- a call gets on

  // k steps of one side alone.
  function Alone(s: State, step: Step, k: nat): State
    decreases k
  {
    if k == 0 then s else Alone(Move(s, step), step, k - 1)
  }

  lemma {:induction false} AloneOn(s: State, step: Step, j: nat, k: nat)
    ensures Alone(s, step, j + k) == Alone(Alone(s, step, j), step, k)
    decreases j
  {
    hide Move;
    if j > 0 {
      AloneOn(Move(s, step), step, j - 1, k);
    }
  }

  lemma AloneTwo(s: State, step: Step)
    ensures Alone(s, step, 2) == Move(Move(s, step), step)
  {
    hide Move;
    var m := Move(s, step);
    assert Alone(s, step, 2) == Alone(m, step, 1) == Alone(Move(m, step), step, 0);
  }

  // The test of the loop.
  lemma ReadLooks(s: State, n: nat, i: nat, closed: bool)
    requires s.reader == RTest(n, i) && i < n && |s.buf| == BY2PIPE
    ensures Alone(s, Read(closed), 2) == s.(reader :=
      if s.rpos != s.wpos then RIndex(n, i) else if closed || i > 0 then RIdle else RTest(n, i))
  {
    AloneTwo(s, Read(closed));
    hide Alone;
  }

  lemma ReadTakes(s: State, n: nat, i: nat, closed: bool)
    requires s.reader == RIndex(n, i) && |s.buf| == BY2PIPE
    ensures Alone(s, Read(closed), 4) ==
      s.(reader := RTest(n, i + 1), got := s.got + [s.buf[s.rpos % BY2PIPE]], taken := s.taken + 1, rpos := NextPos(s.rpos))
  {
    var step := Read(closed);
    var m := s.(reader := RAgain(n, i), got := s.got + [s.buf[s.rpos % BY2PIPE]]);
    assert Move(s, step) == s.(reader := RByte(n, i, s.rpos));
    assert Move(Move(s, step), step) == m;
    assert Move(m, step) == m.(reader := RBump(n, i, s.rpos));
    AloneTwo(s, step);
    AloneTwo(m, step);
    AloneOn(s, step, 2, 2);
    hide Alone, Move, NextPos;
  }

  lemma ReadDone(s: State, n: nat, closed: bool)
    requires s.reader == RTest(n, n) && |s.buf| == BY2PIPE
    ensures Move(s, Read(closed)) == s.(reader := RIdle)
  {
  }

  lemma WriteDone(s: State, data: seq<Byte>, closed: bool)
    requires s.writer == WTest(data, |data|) && |s.buf| == BY2PIPE
    ensures Move(s, Write(closed)) == s.(writer := WIdle)
  {
  }

  // What the invariant says at the heads of the loops.
  lemma HeadFacts(s: State)
    requires Inv(s)
    ensures |s.buf| == BY2PIPE && (s.rpos == s.wpos <==> s.taken == s.sent) && s.taken <= s.sent
    ensures Distance(s.wpos, s.rpos) == s.sent - s.taken <= BY2PIPE
    ensures s.taken < s.sent ==> s.taken < |s.put| && s.buf[s.rpos % BY2PIPE] == s.put[s.taken]
    ensures s.reader.RTest? ==> s.reader.i <= s.reader.n
    ensures s.writer.WTest? ==> s.writer.i <= |s.writer.data|
  {
    WrapDistance(s.taken, s.sent);
    WrapIndex(s.taken);
  }

  /**
   * At the head of its loop the reader, left alone, ends the call if it has all its bytes, takes the
   * next byte if there is one, and else ends the call or looks again, as it has bytes or is told.
   */
  lemma ReadTurn(s: State, closed: bool)
    requires Inv(s) && s.reader.RTest?
    ensures var n, i := s.reader.n, s.reader.i;
      if i == n then Move(s, Read(closed)) == s.(reader := RIdle)
      else if s.taken < s.sent then
        s.taken < |s.put| && Alone(s, Read(closed), 6) ==
          s.(reader := RTest(n, i + 1), got := s.got + [s.put[s.taken]], taken := s.taken + 1, rpos := NextPos(s.rpos))
      else Alone(s, Read(closed), 2) == s.(reader := if closed || i > 0 then RIdle else RTest(n, i))
  {
    hide Inv, Alone, Move, NextPos, Distance;
    HeadFacts(s);
    var n, i := s.reader.n, s.reader.i;
    if i == n {
      ReadDone(s, n, closed);
    } else {
      ReadLooks(s, n, i, closed);
      if s.taken < s.sent {
        ReadTakes(s.(reader := RIndex(n, i)), n, i, closed);
        AloneOn(s, Read(closed), 2, 4);
      }
    }
  }

  lemma WriteLooks(s: State, data: seq<Byte>, i: nat, closed: bool)
    requires s.writer == WTest(data, i) && i < |data| && |s.buf| == BY2PIPE
    ensures Alone(s, Write(closed), 2) == s.(writer :=
      if Distance(s.wpos, s.rpos) != BY2PIPE then WIndex(data, i) else if closed then WIdle else WTest(data, i))
  {
    AloneTwo(s, Write(closed));
    hide Alone, Distance;
  }

  lemma WritePuts(s: State, data: seq<Byte>, i: nat, closed: bool)
    requires s.writer == WIndex(data, i) && i < |data| && |s.buf| == BY2PIPE
    ensures Alone(s, Write(closed), 4) ==
      s.(writer := WTest(data, i + 1), put := s.put + [data[i]], sent := s.sent + 1, wpos := NextPos(s.wpos),
         buf := s.buf[s.wpos % BY2PIPE := data[i]])
  {
    var step := Write(closed);
    var m := s.(writer := WAgain(data, i), put := s.put + [data[i]], buf := s.buf[s.wpos % BY2PIPE := data[i]]);
    assert Move(s, step) == s.(writer := WByte(data, i, s.wpos));
    assert Move(Move(s, step), step) == m;
    assert Move(m, step) == m.(writer := WBump(data, i, s.wpos));
    AloneTwo(s, step);
    AloneTwo(m, step);
    AloneOn(s, step, 2, 2);
    hide Alone, Move, NextPos;
  }

  /** The same for the writer: it ends, stores the next byte if the ring is not full, or looks again. */
  lemma WriteTurn(s: State, closed: bool)
    requires Inv(s) && s.writer.WTest?
    ensures |s.buf| == BY2PIPE
    ensures var data, i := s.writer.data, s.writer.i;
      if i == |data| then Move(s, Write(closed)) == s.(writer := WIdle)
      else if s.sent - s.taken < BY2PIPE then
        i < |data| && Alone(s, Write(closed), 6) ==
          s.(writer := WTest(data, i + 1), put := s.put + [data[i]], sent := s.sent + 1, wpos := NextPos(s.wpos),
             buf := s.buf[s.wpos % BY2PIPE := data[i]])
      else Alone(s, Write(closed), 2) == s.(writer := if closed then WIdle else WTest(data, i))
  {
    hide Inv, Alone, Move, NextPos, Distance;
    HeadFacts(s);
    var data, i := s.writer.data, s.writer.i;
    if i == |data| {
      WriteDone(s, data, closed);
    } else {
      WriteLooks(s, data, i, closed);
      if s.sent - s.taken < BY2PIPE {
        WritePuts(s.(writer := WIndex(data, i)), data, i, closed);
        AloneOn(s, Write(closed), 2, 4);
      }
    }
  }
}
