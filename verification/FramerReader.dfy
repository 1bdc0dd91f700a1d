/** Framer.Read (internal/oop/framer.go): the buffered reader over the splitter.
    The underlying reader is a script of chunks, each possibly carrying an error;
    past its end it reports Eof. */
module FramerReader {
  import opened Common
  import opened Framer

  datatype Failure = Eof | Broken(code: int)

  /** What one call of a reader returns: data, and possibly an error beside it. */
  datatype Answer = Answer(data: Bytes, err: Option<Failure>)

  datatype ReaderState = ReaderState(buf: Bytes, carry: Bytes, pendingErr: Option<Failure>, chunks: seq<Answer>)

  function Start(chunks: seq<Answer>): ReaderState {
    ReaderState([], [], None, chunks)
  }

  // ---------- Specification of one Read ----------

  function ReadStep(st: ReaderState, cap: nat): (ReaderState, Answer)
    decreases |st.chunks|, st.buf == [], st.pendingErr.None?
  {
    if st.buf != [] then
      var n := if cap < |st.buf| then cap else |st.buf|;
      (st.(buf := st.buf[n..]), Answer(st.buf[..n], None))
    else if st.pendingErr.Some? then (st.(pendingErr := None), Answer([], st.pendingErr))
    else if st.chunks == [] then (st, Answer([], Some(Eof)))
    else
      var c, rest := st.chunks[0], st.chunks[1..];
      if c.data == [] then (st.(chunks := rest), c)
      else ReadStep(Refilled(st, c, rest), cap)
  }

  function Refilled(st: ReaderState, c: Answer, rest: seq<Answer>): ReaderState {
    ReaderState(Lines(Packets(st.carry + c.data)), Rest(st.carry + c.data), c.err, rest)
  }

  // ---------- The reader itself ----------

  class Source {
    var chunks: seq<Answer>

    constructor (chunks: seq<Answer>)
      ensures this.chunks == chunks
    {
      this.chunks := chunks;
    }

    method Read() returns (a: Answer)
      modifies this
      ensures old(chunks) == [] ==> a == Answer([], Some(Eof)) && chunks == []
      ensures old(chunks) != [] ==> a == old(chunks)[0] && chunks == old(chunks)[1..]
    {
      if chunks == [] {
        return Answer([], Some(Eof));
      }
      a := chunks[0];
      chunks := chunks[1..];
    }
  }

  class Reader {
    const r: Source
    var buf: Bytes
    var carry: Bytes
    var pendingErr: Option<Failure>

    ghost function State(): ReaderState
      reads this, r
    {
      ReaderState(buf, carry, pendingErr, r.chunks)
    }

    constructor (r: Source)
      ensures this.r == r && State() == Start(r.chunks)
    {
      this.r := r;
      buf, carry, pendingErr := [], [], None;
    }

    method Read(cap: nat) returns (a: Answer)
      modifies this, r
      ensures (State(), a) == ReadStep(old(State()), cap)
    {
      hide Packets, Rest, Lines;
      while buf == []
        invariant ReadStep(State(), cap) == ReadStep(old(State()), cap)
        decreases |r.chunks|, buf == [], pendingErr.None?
      {
        if pendingErr.Some? {
          a := Answer([], pendingErr);
          pendingErr := None;
          return;
        }
        a := r.Read();
        if a.data == [] {
          return;
        }
        carry := carry + a.data;
        var out, remaining := SplitOutOfProcPackets(carry);
        carry := remaining;
        if out != [] {
          buf := out;
          if a.err.Some? {
            pendingErr := a.err;
          }
          break;
        }
        if a.err.Some? {
          pendingErr := a.err;
        }
      }
      var n := if cap < |buf| then cap else |buf|;
      a := Answer(buf[..n], None);
      buf := buf[n..];
    }
  }

  // ---------- Whole runs ----------

  function ReadAll(st: ReaderState, caps: seq<nat>): (ReaderState, seq<Answer>)
    decreases |caps|
  {
    if caps == [] then (st, [])
    else
      var (st', a) := ReadStep(st, caps[0]);
      var (st'', rest) := ReadAll(st', caps[1..]);
      (st'', [a] + rest)
  }

  function Whole(answers: seq<Answer>): Bytes {
    if answers == [] then [] else answers[0].data + Whole(answers[1..])
  }

  /** Errors other than the end of the stream, which repeats. */
  function Faults(answers: seq<Answer>): seq<Failure> {
    if answers == [] then [] else Fault(answers[0].err) + Faults(answers[1..])
  }

  function Fault(e: Option<Failure>): seq<Failure> {
    if e.Some? && e.value.Broken? then [e.value] else []
  }

  lemma {:induction false} WholeConcat(a: seq<Answer>, b: seq<Answer>)
    ensures Whole(a + b) == Whole(a) + Whole(b)
    ensures Faults(a + b) == Faults(a) + Faults(b)
  {
    if a == [] {
      assert a + b == b;
    } else {
      hide Whole, Faults, Fault;
      WholeConcat(a[1..], b);
      assert a == [a[0]] + a[1..] && a + b == [a[0]] + (a[1..] + b);
      Leads(a[0], a[1..]);
      Leads(a[0], a[1..] + b);
      ConcatAssociates(a[0].data, Whole(a[1..]), Whole(b));
      ConcatAssociates(Fault(a[0].err), Faults(a[1..]), Faults(b));
    }
  }

  lemma Leads(c: Answer, more: seq<Answer>)
    ensures Whole([c] + more) == c.data + Whole(more)
    ensures Faults([c] + more) == Fault(c.err) + Faults(more)
  {
    assert ([c] + more)[1..] == more;
  }

  /** `received` has been taken from the source and `delivered` handed on: together
      with what is buffered that is exactly the framing of what was received. */
  predicate Framed(received: Bytes, delivered: Bytes, st: ReaderState) {
    Lines(Packets(received)) == delivered + st.buf && Rest(received) == st.carry
  }

  lemma RefillKeeps(received: Bytes, delivered: Bytes, st: ReaderState, c: Answer, rest: seq<Answer>)
    requires Framed(received, delivered, st) && st.buf == []
    ensures Framed(received + c.data, delivered, Refilled(st, c, rest))
  {
    hide Packets, Rest, Lines;
    ChunkingIndependence(received, c.data);
    LinesConcat(Packets(received), Packets(st.carry + c.data));
  }

  /** What one Read does: it takes `used` chunks off the source. */
  lemma {:induction false} StepKeeps(st: ReaderState, cap: nat, received: Bytes, delivered: Bytes)
    returns (used: seq<Answer>)
    requires Framed(received, delivered, st)
    ensures var (st', a) := ReadStep(st, cap);
            && used + st'.chunks == st.chunks
            && Framed(received + Whole(used), delivered + a.data, st')
            && |a.data| <= cap
            && (a.err.Some? ==> a.data == [] && st'.buf == [])
            && Fault(st.pendingErr) + Faults(used) == Fault(a.err) + Fault(st'.pendingErr)
    decreases |st.chunks|, st.buf == [], st.pendingErr.None?
  {
    hide Packets, Rest, Lines, Fault, Faults, Whole, Framed;
    used := [];
    var (st', a) := ReadStep(st, cap);
    if st.buf != [] || st.pendingErr.Some? || st.chunks == [] {
      TakesNone(received);
      HandsOn(received, delivered, st, st', a.data);
    } else {
      var c, rest := st.chunks[0], st.chunks[1..];
      if c.data == [] {
        used := [c];
        TakesFirst(c, [], received);
        HandsOn(received, delivered, st, st', []);
        assert [c] + [] == [c] && [] + Fault(c.err) == Fault(c.err) + [];
      } else {
        hide ReadStep;
        ReadRefills(st, cap);
        RefillKeeps(received, delivered, st, c, rest);
        var more := StepKeeps(Refilled(st, c, rest), cap, received + c.data, delivered);
        used := [c] + more;
        TakesFirst(c, more, received);
        assert Fault(None) + Faults(used) == Faults(used);
      }
    }
  }

  /** Handing on the front of the buffer, or nothing, keeps the frame. */
  lemma HandsOn(received: Bytes, delivered: Bytes, st: ReaderState, st': ReaderState, data: Bytes)
    requires Framed(received, delivered, st) && st.buf == data + st'.buf && st'.carry == st.carry
    ensures Framed(received, delivered + data, st')
  {
    hide Packets, Rest, Lines;
    ConcatAssociates(delivered, data, st'.buf);
  }

  lemma ReadRefills(st: ReaderState, cap: nat)
    requires st.buf == [] && st.pendingErr.None? && st.chunks != [] && st.chunks[0].data != []
    ensures ReadStep(st, cap) == ReadStep(Refilled(st, st.chunks[0], st.chunks[1..]), cap)
  {
    hide Packets, Rest, Lines;
  }

  lemma TakesNone(received: Bytes)
    ensures received + Whole([]) == received && Faults([]) == [] && Fault(None) == [] && Fault(Some(Eof)) == []
  {
  }

  lemma TakesFirst(c: Answer, more: seq<Answer>, received: Bytes)
    ensures received + Whole([c] + more) == received + c.data + Whole(more)
    ensures Faults([c] + more) == Fault(c.err) + Faults(more)
    ensures more == [] && c.data == [] ==>
      received + Whole([c] + more) == received && Faults([c] + more) == Fault(c.err)
    ensures Fault(None) == []
  {
    hide Whole, Faults;
    Leads(c, more);
    TakesNone(received);
    ConcatAssociates(received, c.data, Whole(more));
  }

  lemma Reassociate<T>(a: seq<T>, b: seq<T>, c: seq<T>, x: seq<T>, y: seq<T>, z: seq<T>, w: seq<T>)
    requires a + b == x + y && y + c == z + w
    ensures a + (b + c) == (x + z) + w
  {
    assert a + (b + c) == (a + b) + c;
    assert (x + y) + c == x + (y + c);
    assert x + (z + w) == (x + z) + w;
  }

  lemma {:induction false} RunKeeps(st: ReaderState, caps: seq<nat>, received: Bytes, delivered: Bytes)
    returns (used: seq<Answer>)
    requires Framed(received, delivered, st)
    ensures var (st', answers) := ReadAll(st, caps);
            && used + st'.chunks == st.chunks
            && Framed(received + Whole(used), delivered + Whole(answers), st')
            && Fault(st.pendingErr) + Faults(used) == Faults(answers) + Fault(st'.pendingErr)
    decreases |caps|
  {
    hide Packets, Rest, Lines, ReadStep, Fault, Whole, Faults, Framed;
    if caps == [] {
      used := [];
      TakesNone(received);
      TakesNone(delivered);
    } else {
      var (st', a) := ReadStep(st, caps[0]);
      var first := StepKeeps(st, caps[0], received, delivered);
      var more := RunKeeps(st', caps[1..], received + Whole(first), delivered + a.data);
      used := first + more;
      WholeConcat(first, more);
      var (st'', rest) := ReadAll(st', caps[1..]);
      assert received + Whole(used) == received + Whole(first) + Whole(more);
      TakesFirst(a, rest, delivered);
      Reassociate(Fault(st.pendingErr), Faults(first), Faults(more),
                  Fault(a.err), Fault(st'.pendingErr), Faults(rest), Fault(st''.pendingErr));
    }
  }

  lemma StartFramed(chunks: seq<Answer>)
    ensures Framed([], [], Start(chunks))
  {
  }

  /** Any sequence of Reads, of any sizes, over any chunking of a stream delivers a
      prefix of the framing of the whole stream, and reports the faults of the chunks
      it took, in order, bar one it may still owe. */
  lemma DeliversPrefix(chunks: seq<Answer>, caps: seq<nat>)
    ensures var (st, answers) := ReadAll(Start(chunks), caps);
            && Whole(answers) + st.buf <= Lines(Packets(Whole(chunks)))
            && Faults(answers) + Fault(st.pendingErr) <= Faults(chunks)
  {
    var (st, answers) := ReadAll(Start(chunks), caps);
    StartFramed(chunks);
    var used := RunKeeps(Start(chunks), caps, [], []);
    WholeConcat(used, st.chunks);
    hide Packets, Rest, Lines, ReadStep, ReadAll, Whole, Faults;
    ChunkingIndependence(Whole(used), Whole(st.chunks));
    LinesConcat(Packets(Whole(used)), Packets(Rest(Whole(used)) + Whole(st.chunks)));
    assert [] + Whole(used) == Whole(used) && [] + Whole(answers) == Whole(answers);
  }

  /** An error is reported only once every packet framed from the chunks taken so far
      has been handed on in full. */
  lemma ErrorComesLast(chunks: seq<Answer>, caps: seq<nat>, cap: nat)
    ensures var (st, answers) := ReadAll(Start(chunks), caps);
            var (st', a) := ReadStep(st, cap);
            && |st'.chunks| <= |chunks|
            && (a.err.Some? ==>
                  && a.data == []
                  && Whole(answers) == Lines(Packets(Whole(chunks[..|chunks| - |st'.chunks|]))))
  {
    hide Packets, Rest, Lines, ReadStep, ReadAll, Whole, Faults, Framed, Fault;
    var (st, answers) := ReadAll(Start(chunks), caps);
    var (st', a) := ReadStep(st, cap);
    StartFramed(chunks);
    var used := RunKeeps(Start(chunks), caps, [], []);
    assert [] + Whole(used) == Whole(used) && [] + Whole(answers) == Whole(answers);
    var more := StepKeeps(st, cap, Whole(used), Whole(answers));
    WholeConcat(used, more);
    TakenAre(used, more, st'.chunks, chunks);
    if a.err.Some? {
      assert Whole(answers) + a.data == Whole(answers);
      AllHandedOn(Whole(used + more), Whole(answers), st');
    }
  }

  lemma TakenAre(used: seq<Answer>, more: seq<Answer>, left: seq<Answer>, chunks: seq<Answer>)
    requires used + (more + left) == chunks
    ensures |left| <= |chunks| && used + more == chunks[..|chunks| - |left|]
  {
    assert (used + more) + left == chunks;
  }

  lemma AllHandedOn(received: Bytes, delivered: Bytes, st: ReaderState)
    requires Framed(received, delivered, st) && st.buf == []
    ensures delivered == Lines(Packets(received))
  {
    hide Packets, Lines, Rest;
    assert delivered + [] == delivered;
  }

  /** Two readers of one byte stream, cut into chunks and read in any sizes, have
      delivered the same bytes once both are drained. */
  lemma ChunkingInvisible(chunks: seq<Answer>, caps: seq<nat>, chunks': seq<Answer>, caps': seq<nat>)
    requires Whole(chunks) == Whole(chunks')
    requires var st := ReadAll(Start(chunks), caps).0; st.chunks == [] && st.buf == []
    requires var st := ReadAll(Start(chunks'), caps').0; st.chunks == [] && st.buf == []
    ensures Whole(ReadAll(Start(chunks), caps).1) == Whole(ReadAll(Start(chunks'), caps').1)
            == Lines(Packets(Whole(chunks)))
  {
    Drained(chunks, caps);
    Drained(chunks', caps');
  }

  lemma Drained(chunks: seq<Answer>, caps: seq<nat>)
    requires var st := ReadAll(Start(chunks), caps).0; st.chunks == [] && st.buf == []
    ensures Whole(ReadAll(Start(chunks), caps).1) == Lines(Packets(Whole(chunks)))
  {
    var (st, answers) := ReadAll(Start(chunks), caps);
    StartFramed(chunks);
    var used := RunKeeps(Start(chunks), caps, [], []);
    assert used == chunks && [] + Whole(used) == Whole(chunks) && [] + Whole(answers) + [] == Whole(answers);
  }

  // ---------- Every byte arrives ----------

  /** The chunk taken last in going from `before` to `after`. */
  function LastTaken(before: seq<Answer>, after: seq<Answer>): Answer
    requires |after| < |before|
  {
    before[|before| - |after| - 1]
  }

  /** What one Read hands on.  From a filled buffer, as much of its front as fits.  Without
      an error it fills the caller's room or empties the buffer; and it hands on nothing
      only if the source itself gave neither data nor error. */
  lemma {:induction false} HandsOnAll(st: ReaderState, cap: nat)
    ensures
      var (st', a) := ReadStep(st, cap);
      && (st.buf != [] ==>
            a.err == None && |a.data| == (if cap < |st.buf| then cap else |st.buf|) && a.data + st'.buf == st.buf
            && st'.carry == st.carry && st'.pendingErr == st.pendingErr && st'.chunks == st.chunks)
      && (a.err == None ==> |a.data| == cap || st'.buf == [])
      && |st'.chunks| <= |st.chunks| && st'.chunks == st.chunks[|st.chunks| - |st'.chunks|..]
      && (a.err == None && a.data == [] && cap >= 1 ==>
            st.buf == [] && |st'.chunks| < |st.chunks| && LastTaken(st.chunks, st'.chunks) == Answer([], None))
    decreases |st.chunks|, st.buf == [], st.pendingErr.None?
  {
    hide Packets, Rest, Lines;
    if st.buf == [] && st.pendingErr.None? && st.chunks != [] && st.chunks[0].data != [] {
      hide ReadStep;
      ReadRefills(st, cap);
      HandsOnAll(Refilled(st, st.chunks[0], st.chunks[1..]), cap);
      TailOfTail(st.chunks, |ReadStep(st, cap).0.chunks|);
    }
  }

  lemma TailOfTail(chunks: seq<Answer>, m: nat)
    requires m < |chunks|
    ensures chunks[1..][|chunks| - 1 - m..] == chunks[|chunks| - m..]
    ensures m < |chunks| - 1 ==> chunks[1..][|chunks| - 1 - m - 1] == chunks[|chunks| - m - 1]
  {
  }

  /** How many Reads, at most, until nothing is left: one for each framed byte still to
      come, one for each error owed, two for each chunk. */
  function Left(st: ReaderState): nat {
    |st.buf| + |Lines(Packets(st.carry + Whole(st.chunks)))| + 2 * |st.chunks| + if st.pendingErr.Some? then 1 else 0
  }

  /** What is carried over holds no whole packet. */
  lemma RestHoldsNone(s: Bytes)
    ensures Packets(Rest(s)) == []
  {
    hide Packets, Rest;
    ChunkingIndependence(s, []);
    assert s + [] == s && Rest(s) + [] == Rest(s);
    assert |Packets(s)| == |Packets(s)| + |Packets(Rest(s))|;
  }

  /** Taking a chunk in leaves less to do. */
  lemma RefillLeaves(st: ReaderState)
    requires st.buf == [] && st.pendingErr.None? && st.chunks != []
    ensures Left(Refilled(st, st.chunks[0], st.chunks[1..])) < Left(st)
    ensures Packets(Refilled(st, st.chunks[0], st.chunks[1..]).carry) == []
  {
    hide Packets, Rest, Lines, Whole;
    var c, rest := st.chunks[0], st.chunks[1..];
    RestHoldsNone(st.carry + c.data);
    assert st.chunks == [c] + rest;
    Leads(c, rest);
    ConcatAssociates(st.carry, c.data, Whole(rest));
    ChunkingIndependence(st.carry + c.data, Whole(rest));
    LinesConcat(Packets(st.carry + c.data), Packets(Rest(st.carry + c.data) + Whole(rest)));
  }

  lemma SkipLeaves(st: ReaderState)
    requires st.buf == [] && st.chunks != [] && st.chunks[0].data == []
    ensures Left(st.(chunks := st.chunks[1..])) < Left(st)
  {
    hide Packets, Lines, Whole;
    assert st.chunks == [st.chunks[0]] + st.chunks[1..];
    Leads(st.chunks[0], st.chunks[1..]);
    assert [] + Whole(st.chunks[1..]) == Whole(st.chunks[1..]);
  }

  lemma NothingLeft(st: ReaderState)
    requires st.buf == [] && st.pendingErr.None? && st.chunks == [] && Packets(st.carry) == []
    ensures Left(st) == 0
  {
    assert st.carry + Whole([]) == st.carry;
  }

  /** A Read with room for a byte gets something done, until nothing is left. */
  lemma {:induction false} ReadWorks(st: ReaderState, cap: nat)
    requires cap >= 1 && Packets(st.carry) == []
    ensures
      var (st', _) := ReadStep(st, cap);
      && Packets(st'.carry) == []
      && (if Left(st) == 0 then st' == st else Left(st') < Left(st))
    decreases |st.chunks|, st.buf == [], st.pendingErr.None?
  {
    hide Packets, Rest, Lines, Whole;
    if st.buf != [] || st.pendingErr.Some? {
    } else if st.chunks == [] {
      NothingLeft(st);
    } else if st.chunks[0].data == [] {
      SkipLeaves(st);
    } else {
      hide ReadStep, Left;
      ReadRefills(st, cap);
      RefillLeaves(st);
      ReadWorks(Refilled(st, st.chunks[0], st.chunks[1..]), cap);
    }
  }

  lemma {:induction false} ReadsEmpty(st: ReaderState, caps: seq<nat>)
    requires Packets(st.carry) == [] && |caps| >= Left(st) && forall cap <- caps :: cap >= 1
    ensures Left(ReadAll(st, caps).0) == 0
    decreases |caps|
  {
    hide Packets, ReadStep, Left;
    if caps != [] {
      var st' := ReadStep(st, caps[0]).0;
      assert caps[0] in caps && forall cap <- caps[1..] :: cap in caps;
      ReadWorks(st, caps[0]);
      ReadsEmpty(st', caps[1..]);
    }
  }

  /** Enough Reads, each with room for a byte, deliver the framing of the whole stream and
      every error of the source, whatever the chunks and the room. */
  lemma EverythingArrives(chunks: seq<Answer>, caps: seq<nat>)
    requires forall cap <- caps :: cap >= 1
    requires |caps| >= |Lines(Packets(Whole(chunks)))| + 2 * |chunks|
    ensures
      var (st, answers) := ReadAll(Start(chunks), caps);
      && st.buf == [] && st.chunks == [] && st.pendingErr == None
      && Whole(answers) == Lines(Packets(Whole(chunks)))
      && Faults(answers) == Faults(chunks)
  {
    var (st, answers) := ReadAll(Start(chunks), caps);
    assert [] + Whole(chunks) == Whole(chunks) && Packets([]) == [];
    ReadsEmpty(Start(chunks), caps);
    StartFramed(chunks);
    hide Packets, Rest, Lines, ReadStep, ReadAll;
    Drained(chunks, caps);
    var used := RunKeeps(Start(chunks), caps, [], []);
    assert used == chunks;
    TakesNone([]);
    assert Faults(answers) + [] == Faults(answers) && [] + Faults(chunks) == Faults(chunks);
  }
}
