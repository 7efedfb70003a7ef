/** The streaming protocol of projects/adc_test/server and projects/dac_player: the RAM
    writer fills a ring, a child process polls its position and copies finished halves
    into a shared buffer, and a parent process sends a half for every token it reads.
    The copies and sends go word by word, interleaved with the hardware. */
module PingPong {
  import opened Bits

  const HALF := 512 * 1024     // words of eight bytes: 4096*1024 bytes

  datatype Child = AtPoll | Copying(at: nat)

  datatype Parent = Waiting | Sending(at: nat)

  /** What the hardware and the two processes share. */
  datatype State<T> = State(
    ring: seq<T>, position: nat,
    limit: nat, offset: nat, child: Child,
    buf: seq<T>, tokens: nat,
    half: nat, parent: Parent)

  datatype Event<T> = Write(word: T) | ChildPoll | ChildCopy | ParentRead | ParentSend

  /** The poll condition on the writer position. */
  predicate HalfDone<T>(h: nat, s: State<T>) {
    (s.limit > 0 && s.position > s.limit) || (s.limit == 0 && s.position < h)
  }

  predicate Shaped<T>(h: nat, s: State<T>) {
    && 0 < h && |s.ring| == |s.buf| == 2 * h && s.position < 2 * h
    && (s.limit == 0 || s.limit == h)
    && s.offset <= h && s.half <= h
    && (s.child.Copying? ==> s.child.at < h)
    && (s.parent.Sending? ==> s.parent.at < h)
  }

  function Step<T>(h: nat, s: State<T>, e: Event<T>): (s': State<T>)
    requires Shaped(h, s)
    ensures Shaped(h, s')
  {
    match e
    case Write(x) =>
      s.(ring := s.ring[s.position := x], position := Wrap(s.position + 1, 2 * h))
    case ChildPoll =>
      if s.child.AtPoll? && HalfDone(h, s) then
        s.(offset := if s.limit > 0 then 0 else h,
           limit := if s.limit > 0 then 0 else h,
           child := Copying(0))
      else s
    case ChildCopy =>
      if s.child.AtPoll? then s
      else
        var k := s.offset + s.child.at;
        var s' := s.(buf := s.buf[k := s.ring[k]]);
        if s.child.at + 1 < h then s'.(child := Copying(s.child.at + 1))
        else s'.(child := AtPoll, tokens := s.tokens + 1)
    case ParentRead =>
      if s.parent.Waiting? && s.tokens > 0 then s.(tokens := s.tokens - 1, parent := Sending(0)) else s
    case ParentSend =>
      if s.parent.Waiting? then s
      else if s.parent.at + 1 < h then s.(parent := Sending(s.parent.at + 1))
      else s.(parent := Waiting, half := h - s.half)
  }

  /** A state with what happened so far: all the words written and sent, how many
      words had been written at the last poll, and where the block the child looks
      for starts. */
  datatype Sim<T> = Sim(s: State<T>, stream: seq<T>, sent: seq<T>, polledAt: nat, next: nat) {
    /** How many words the child has copied in all. */
    function Copied(h: nat): int {
      if s.child.Copying? then next - h + s.child.at else next
    }
  }

  function Tick<T>(h: nat, m: Sim<T>, e: Event<T>): Sim<T>
    requires Shaped(h, m.s)
  {
    var s, s' := m.s, Step(h, m.s, e);
    match e
    case Write(x) => m.(s := s', stream := m.stream + [x])
    case ChildPoll =>
      if s.child.Copying? then m
      else m.(s := s', polledAt := |m.stream|, next := if s'.child.Copying? then m.next + h else m.next)
    case ChildCopy => m.(s := s')
    case ParentRead => m.(s := s')
    case ParentSend =>
      m.(s := s', sent := m.sent + if s.parent.Sending? then [s.buf[s.half + s.parent.at]] else [])
  }

  /** The speed the program relies on. Between two polls the writer advances by less
      than half the ring; it has not come around to a word still to be copied; and the
      word about to be replaced in the buffer has been sent. */
  predicate Timely<T>(h: nat, m: Sim<T>, e: Event<T>) {
    match e
    case ChildPoll => m.s.child.AtPoll? ==> |m.stream| < m.polledAt + h
    case ChildCopy =>
      m.s.child.Copying? ==>
        |m.stream| <= m.Copied(h) + 2 * h && m.Copied(h) < |m.sent| + 2 * h
    case _ => true
  }

  function Start<T>(h: nat, ring: seq<T>, buf: seq<T>): Sim<T> {
    Sim(State(ring, 0, h, 0, AtPoll, buf, 0, 0, Waiting), [], [], 0, 0)
  }

  /** What a state becomes over a sequence of events. */
  function Run<T>(h: nat, m: Sim<T>, es: seq<Event<T>>): (m': Sim<T>)
    requires Shaped(h, m.s)
    ensures Shaped(h, m'.s)
  {
    if es == [] then m else Tick(h, Run(h, m, es[..|es|-1]), es[|es|-1])
  }

  /** A recording from its start. */
  function After<T>(h: nat, ring: seq<T>, buf: seq<T>, es: seq<Event<T>>): (m: Sim<T>)
    requires 0 < h && |ring| == |buf| == 2 * h
    ensures Shaped(h, m.s)
  {
    Run(h, Start(h, ring, buf), es)
  }

  predicate TimelyRun<T>(h: nat, m: Sim<T>, es: seq<Event<T>>)
    requires Shaped(h, m.s)
  {
    es == [] ||
    var before := es[..|es|-1];
    TimelyRun(h, m, before) && Timely(h, Run(h, m, before), es[|es|-1])
  }

  lemma Unroll<T>(h: nat, m: Sim<T>, before: seq<Event<T>>, e: Event<T>)
    requires Shaped(h, m.s)
    ensures Run(h, m, before + [e]) == Tick(h, Run(h, m, before), e)
    ensures TimelyRun(h, m, before + [e]) <==> TimelyRun(h, m, before) && Timely(h, Run(h, m, before), e)
  {
    assert (before + [e])[..|before|] == before;
  }

  /** What a send step adds to the words sent. */
  lemma SentOf<T>(h: nat, m: Sim<T>, before: seq<Event<T>>)
    requires Shaped(h, m.s)
    ensures var s := Run(h, m, before).s;
            Run(h, m, before + [ParentSend]).sent == Run(h, m, before).sent +
            if s.parent.Sending? then [s.buf[s.half + s.parent.at]] else []
  {
    Unroll(h, m, before, ParentSend);
    hide Run, Step;
  }

  // ---------------------------------------------------------------- invariant

  /** A ring of 2h places holds the latest words of a stream of which n are in. */
  ghost predicate Holds<T>(h: nat, ring: seq<T>, stream: seq<T>, n: int)
    requires 0 < h && |ring| == 2 * h
  {
    forall k {:trigger stream[k]} :: 0 <= k < |stream| && n - 2 * h <= k < n ==> ring[Wrap(k, 2 * h)] == stream[k]
  }

  function Blocks(n: nat, h: nat): nat {
    if n == 0 then 0 else h + Blocks(n - 1, h)
  }

  ghost predicate ChildInv<T>(h: nat, m: Sim<T>)
    requires 0 < h
  {
    var s := m.s;
    && m.next <= m.polledAt <= |m.stream| && m.polledAt <= m.next + h
    && Wrap(m.next, 2 * h) == (if s.limit == 0 then h else 0)
    && (s.child.Copying? ==> h <= m.next && Wrap(m.next - h, 2 * h) == s.offset)
  }

  ghost predicate ParentInv<T>(h: nat, m: Sim<T>)
    requires 0 < h
  {
    var s := m.s;
    var at := if s.parent.Sending? then s.parent.at else 0;
    && at <= |m.sent|
    && Wrap(|m.sent| - at, 2 * h) == s.half && (s.half == 0 || s.half == h)
    && |m.sent| - at + (if s.parent.Sending? then h else 0) + Blocks(s.tokens, h)
       == m.next - if s.child.Copying? then h else 0
  }

  ghost predicate Inv<T>(h: nat, m: Sim<T>) {
    && Shaped(h, m.s)
    && m.s.position == Wrap(|m.stream|, 2 * h)
    && ChildInv(h, m) && ParentInv(h, m)
    && Holds(h, m.s.ring, m.stream, |m.stream|)
    && Holds(h, m.s.buf, m.stream, m.Copied(h))
    && m.Copied(h) <= |m.sent| + 2 * h
    && m.sent <= m.stream
  }

  lemma {:induction false} WrapHalfTurn(n: nat, h: nat)
    requires 0 < h
    ensures Wrap(n + h, 2 * h) == if Wrap(n, 2 * h) < h then Wrap(n, 2 * h) + h else Wrap(n, 2 * h) - h
  {
    WrapAdd(n, h, 2 * h);
  }

  /** Storing word n keeps the latest 2h words of a stream. */
  lemma HoldsStep<T>(h: nat, ring: seq<T>, stream: seq<T>, n: nat)
    requires 0 < h && |ring| == 2 * h && n < |stream| && Holds(h, ring, stream, n)
    ensures Holds(h, ring[Wrap(n, 2 * h) := stream[n]], stream, n + 1)
  {
    hide Wrap;
    forall k | 0 <= k < |stream| && n + 1 - 2 * h <= k < n
      ensures Wrap(k, 2 * h) != Wrap(n, 2 * h)
    {
      WrapInjective(k, n, 2 * h);
    }
  }

  lemma HoldsAt<T>(h: nat, ring: seq<T>, stream: seq<T>, n: int, k: nat)
    requires 0 < h && |ring| == 2 * h && Holds(h, ring, stream, n)
    requires k < |stream| && n - 2 * h <= k < n
    ensures ring[Wrap(k, 2 * h)] == stream[k]
  {
  }

  lemma OneMoreBlock(n: nat, h: nat)
    ensures Blocks(n + 1, h) == h + Blocks(n, h)
  {
  }

  lemma HoldsLonger<T>(h: nat, ring: seq<T>, stream: seq<T>, x: T, n: int)
    requires 0 < h && |ring| == 2 * h && n <= |stream| && Holds(h, ring, stream, n)
    ensures Holds(h, ring, stream + [x], n)
  {
    assert forall k :: 0 <= k < |stream| ==> (stream + [x])[k] == stream[k];
  }

  lemma WriteStep<T>(h: nat, m: Sim<T>, x: T)
    requires Inv(h, m)
    ensures Inv(h, Tick(h, m, Write(x)))
  {
    hide Wrap, Holds, Blocks;
    var n := |m.stream|;
    WrapStep(n, 2 * h);
    HoldsLonger(h, m.s.ring, m.stream, x, n);
    HoldsStep(h, m.s.ring, m.stream + [x], n);
    HoldsLonger(h, m.s.buf, m.stream, x, m.Copied(h));
  }

  /** Where the writer stands when it is less than a ring past the start of a block. */
  lemma PositionAhead(h: nat, next: nat, n: nat)
    requires 0 < h && next <= n < next + 2 * h && Wrap(next, 2 * h) in {0, h}
    ensures Wrap(n, 2 * h) == if Wrap(next, 2 * h) == 0 then n - next
                              else if n - next < h then h + (n - next) else n - next - h
  {
    WrapAdd(next, n - next, 2 * h);
  }

  lemma PollProcesses<T>(h: nat, m: Sim<T>)
    requires Shaped(h, m.s) && ChildInv(h, m) && ParentInv(h, m) && Timely(h, m, ChildPoll)
    requires m.s.child.AtPoll? && m.s.position == Wrap(|m.stream|, 2 * h)
    ensures var m' := Tick(h, m, ChildPoll);
            ChildInv(h, m') && ParentInv(h, m') && m'.Copied(h) == m.Copied(h)
  {
    hide Wrap, Blocks;
    PositionAhead(h, m.next, |m.stream|);
    WrapHalfTurn(m.next, h);
  }

  lemma PollStep<T>(h: nat, m: Sim<T>)
    requires Inv(h, m) && Timely(h, m, ChildPoll)
    ensures Inv(h, Tick(h, m, ChildPoll))
  {
    hide Wrap, Holds, Blocks;
    if m.s.child.AtPoll? {
      PollProcesses(h, m);
      hide ChildInv, ParentInv, HalfDone;
    }
  }

  /** The word copied next is the next word of the stream. */
  lemma CopiedWord<T>(h: nat, m: Sim<T>)
    requires Inv(h, m) && Timely(h, m, ChildCopy) && m.s.child.Copying?
    ensures var n, k := m.Copied(h), m.s.offset + m.s.child.at;
            && 0 <= n < |m.stream| && k == Wrap(n, 2 * h)
            && m.s.ring[k] == m.stream[n]
  {
    hide Wrap, Holds, Blocks, ParentInv;
    WrapAdd(m.next - h, m.s.child.at, 2 * h);
    HoldsAt(h, m.s.ring, m.stream, |m.stream|, m.Copied(h));
  }

  lemma CopyProcesses<T>(h: nat, m: Sim<T>)
    requires Shaped(h, m.s) && ChildInv(h, m) && ParentInv(h, m) && m.s.child.Copying?
    ensures var m' := Tick(h, m, ChildCopy);
            ChildInv(h, m') && ParentInv(h, m') && m'.Copied(h) == m.Copied(h) + 1
  {
    hide Wrap, Blocks;
    OneMoreBlock(m.s.tokens, h);
  }

  lemma CopyStep<T>(h: nat, m: Sim<T>)
    requires Inv(h, m) && Timely(h, m, ChildCopy)
    ensures Inv(h, Tick(h, m, ChildCopy))
  {
    hide Wrap, Holds, Blocks;
    if m.s.child.Copying? {
      CopiedWord(h, m);
      HoldsStep(h, m.s.buf, m.stream, m.Copied(h));
      CopyProcesses(h, m);
      hide ChildInv, ParentInv;
    }
  }

  lemma ReadStep<T>(h: nat, m: Sim<T>)
    requires Inv(h, m)
    ensures Inv(h, Tick(h, m, ParentRead))
  {
    hide Wrap, Holds, Blocks;
    if m.s.tokens > 0 {
      OneMoreBlock(m.s.tokens - 1, h);
    }
  }

  /** The word sent next is the next word of the stream. */
  lemma SentWord<T>(h: nat, m: Sim<T>)
    requires Inv(h, m) && m.s.parent.Sending?
    ensures var n := |m.sent|;
            n < |m.stream| && m.s.buf[m.s.half + m.s.parent.at] == m.stream[n]
  {
    hide Wrap, Holds, Blocks;
    var n, at := |m.sent|, m.s.parent.at;
    WrapAdd(n - at, at, 2 * h);
    HoldsAt(h, m.s.buf, m.stream, m.Copied(h), n);
  }

  lemma PrefixSnoc<T>(a: seq<T>, b: seq<T>)
    requires a <= b && |a| < |b|
    ensures a + [b[|a|]] <= b
  {
  }

  lemma SendParent<T>(h: nat, m: Sim<T>)
    requires Shaped(h, m.s) && ParentInv(h, m) && m.s.parent.Sending?
    ensures ParentInv(h, Tick(h, m, ParentSend))
  {
    hide Wrap, Blocks;
    WrapHalfTurn(|m.sent| - m.s.parent.at, h);
    var start := |m.sent| - m.s.parent.at;
    assert m.s.parent.at + 1 == h ==> |m.sent| + 1 == start + h;
  }

  lemma SendChild<T>(h: nat, m: Sim<T>)
    requires Shaped(h, m.s) && ChildInv(h, m) && m.s.parent.Sending?
    ensures var m' := Tick(h, m, ParentSend);
            ChildInv(h, m') && m'.Copied(h) == m.Copied(h)
  {
    hide Wrap;
  }

  lemma SendStep<T>(h: nat, m: Sim<T>)
    requires Inv(h, m)
    ensures Inv(h, Tick(h, m, ParentSend))
  {
    hide Wrap, Holds, Blocks, ChildInv, ParentInv;
    if m.s.parent.Sending? {
      SentWord(h, m);
      SendParent(h, m);
      SendChild(h, m);
      PrefixSnoc(m.sent, m.stream);
    } else {
      assert m.sent + [] == m.sent;
    }
  }

  lemma {:induction false} RunKeepsInv<T>(h: nat, m: Sim<T>, es: seq<Event<T>>)
    requires Inv(h, m) && TimelyRun(h, m, es)
    ensures Inv(h, Run(h, m, es))
  {
    if es == [] {
    } else {
      var before, e := es[..|es|-1], es[|es|-1];
      RunKeepsInv(h, m, before);
      var n := Run(h, m, before);
      hide Inv;
      match e {
        case Write(x) => WriteStep(h, n, x);
        case ChildPoll => PollStep(h, n);
        case ChildCopy => CopyStep(h, n);
        case ParentRead => ReadStep(h, n);
        case ParentSend => SendStep(h, n);
      }
    }
  }

  lemma StartInv<T>(h: nat, ring: seq<T>, buf: seq<T>)
    requires 0 < h && |ring| == |buf| == 2 * h
    ensures Inv(h, Start(h, ring, buf))
  {
  }

  // ------------------------------------------------------------ main theorems

  /** Gap-free streaming: over every timely interleaving of the hardware and the two
      processes, what the parent has sent is a prefix of what the hardware wrote: no
      word is lost, repeated or torn. */
  lemma StreamIsGapFree<T>(h: nat, ring: seq<T>, buf: seq<T>, es: seq<Event<T>>)
    requires 0 < h && |ring| == |buf| == 2 * h && TimelyRun(h, Start(h, ring, buf), es)
    ensures var m := After(h, ring, buf, es); m.sent <= m.stream
  {
    StartInv(h, ring, buf);
    RunKeepsInv(h, Start(h, ring, buf), es);
  }

  /** In particular the p-th block sent is samples [p*HALF, (p+1)*HALF). */
  lemma BlockSent<T>(ring: seq<T>, buf: seq<T>, es: seq<Event<T>>, p: nat)
    requires |ring| == |buf| == 2 * HALF && TimelyRun(HALF, Start(HALF, ring, buf), es)
    requires (p + 1) * HALF <= |After(HALF, ring, buf, es).sent|
    ensures var m := After(HALF, ring, buf, es);
            && (p + 1) * HALF <= |m.stream|
            && m.sent[p * HALF..(p + 1) * HALF] == m.stream[p * HALF..(p + 1) * HALF]
  {
    hide After, TimelyRun;
    StreamIsGapFree(HALF, ring, buf, es);
    assert p * HALF <= (p + 1) * HALF;
  }

  /** A timely poll starts a copy exactly when the hardware has finished the half the
      child waits for (and, for the lower half, one word more). */
  lemma PollTakesFinishedHalf<T>(h: nat, m: Sim<T>)
    requires Inv(h, m) && m.s.child.AtPoll? && Timely(h, m, ChildPoll)
    ensures HalfDone(h, m.s) <==>
            m.next + h + (if m.s.limit > 0 then 1 else 0) <= |m.stream|
  {
    hide Wrap, Holds, Blocks;
    PositionAhead(h, m.next, |m.stream|);
  }

  /** The copy hypothesis is sharp: once the writer has come around, the word copied is
      the one from a ring turn later. */
  lemma LateCopyTakesNewerWord<T>(h: nat, m: Sim<T>)
    requires Inv(h, m) && m.s.child.Copying?
    requires m.Copied(h) + 2 * h < |m.stream| <= m.Copied(h) + 4 * h
    ensures var m' := Tick(h, m, ChildCopy);
            m'.s.buf[m.s.offset + m.s.child.at] == m.stream[m.Copied(h) + 2 * h]
  {
    hide Wrap, Holds, Blocks;
    var n := m.Copied(h);
    WrapAdd(m.next - h, m.s.child.at, 2 * h);
    WrapHalfTurn(n, h);
    WrapHalfTurn(n + h, h);
    HoldsAt(h, m.s.ring, m.stream, |m.stream|, n + 2 * h);
  }

  // --------------------------------------------------------------------- progress

  function CopyTimes<T>(h: nat, m: Sim<T>, n: nat): (m': Sim<T>)
    requires Shaped(h, m.s)
    ensures Shaped(h, m'.s)
  {
    if n == 0 then m else Tick(h, CopyTimes(h, m, n - 1), ChildCopy)
  }

  function SendTimes<T>(h: nat, m: Sim<T>, n: nat): (m': Sim<T>)
    requires Shaped(h, m.s)
    ensures Shaped(h, m'.s)
  {
    if n == 0 then m else Tick(h, SendTimes(h, m, n - 1), ParentSend)
  }

  /** n steps of the memcpy, all timely when the first is. */
  lemma {:induction false} CopyHalf<T>(h: nat, m: Sim<T>, n: nat)
    requires Inv(h, m) && m.s.child == Copying(0) && n <= h
    requires |m.stream| <= m.next + h && m.next <= |m.sent| + 2 * h
    ensures var m' := CopyTimes(h, m, n);
            && Inv(h, m') && m'.s.child == (if n < h then Copying(n) else AtPoll)
            && m'.s.tokens == m.s.tokens + (if n < h then 0 else 1)
            && m'.stream == m.stream && m'.sent == m.sent && m'.next == m.next
            && m'.s.parent == m.s.parent
  {
    hide Inv;
    InvShaped(h, m);
    if n == 0 {
    } else {
      CopyHalf(h, m, n - 1);
      CopyStep(h, CopyTimes(h, m, n - 1));
    }
  }

  lemma InvShaped<T>(h: nat, m: Sim<T>)
    requires Inv(h, m)
    ensures Shaped(h, m.s)
  {
  }

  /** n steps of the send. */
  lemma {:induction false} SendHalf<T>(h: nat, m: Sim<T>, n: nat)
    requires Inv(h, m) && m.s.parent == Sending(0) && n <= h
    ensures var m' := SendTimes(h, m, n);
            && Inv(h, m') && m'.s.parent == (if n < h then Sending(n) else Waiting)
            && |m'.sent| == |m.sent| + n && m'.stream == m.stream
            && m'.s.tokens == m.s.tokens && m'.s.child == m.s.child && m'.next == m.next
  {
    hide Inv;
    InvShaped(h, m);
    if n == 0 {
    } else {
      SendHalf(h, m, n - 1);
      SendStep(h, SendTimes(h, m, n - 1));
    }
  }

  /** A block goes through: when a half is done while both processes rest, one poll, one
      memcpy, one token and one send deliver exactly the next half ring of the stream
      and bring both processes back to rest. */
  lemma BlockDelivered<T>(h: nat, m: Sim<T>)
    requires Inv(h, m) && Timely(h, m, ChildPoll) && HalfDone(h, m.s)
    requires m.s.child.AtPoll? && m.s.parent.Waiting? && m.s.tokens == 0
    ensures var m' := SendTimes(h, Tick(h, CopyTimes(h, Tick(h, m, ChildPoll), h), ParentRead), h);
            && Inv(h, m')
            && |m.sent| + h <= |m.stream| && m'.sent == m.stream[..|m.sent| + h]
            && m'.s.child.AtPoll? && m'.s.parent.Waiting? && m'.s.tokens == 0
            && m'.next == m.next + h
  {
    hide Wrap, Holds, CopyTimes, SendTimes;
    var p := Tick(h, m, ChildPoll);
    PollStep(h, m);
    assert |m.sent| == m.next && p.s.child == Copying(0);
    CopyHalf(h, p, h);
    var c := CopyTimes(h, p, h);
    ReadStep(h, c);
    SendHalf(h, Tick(h, c, ParentRead), h);
  }

  // ----------------------------------------------------------------- reconnecting

  /** The next client: the hardware is reset and the parent starts again with the lower
      half, but the child and the pipe go on as they are. */
  function Reconnected<T>(s: State<T>): Sim<T> {
    Sim(s.(position := 0, half := 0, parent := Waiting), [], [], 0, 0)
  }

  /** Whatever happens in time from here on, only the stream is sent. */
  ghost predicate GapFree<T(!new)>(h: nat, m: Sim<T>)
    requires Shaped(h, m.s)
  {
    forall es: seq<Event<T>> :: TimelyRun(h, m, es) ==> Run(h, m, es).sent <= Run(h, m, es).stream
  }

  lemma {:induction false} RunCons<T>(h: nat, m: Sim<T>, e: Event<T>, es: seq<Event<T>>)
    requires Shaped(h, m.s) && Shaped(h, Tick(h, m, e).s)
    ensures Run(h, m, [e] + es) == Run(h, Tick(h, m, e), es)
    ensures TimelyRun(h, m, [e] + es) <==> Timely(h, m, e) && TimelyRun(h, Tick(h, m, e), es)
  {
    hide Tick, Timely;
    if es == [] {
      assert [e] + es == [] + [e];
      Unroll(h, m, [], e);
    } else {
      var front, last := es[..|es|-1], es[|es|-1];
      RunCons(h, m, e, front);
      assert [e] + es == ([e] + front) + [last];
      Unroll(h, m, [e] + front, last);
    }
  }

  /** Nothing has been written, yet this run sends a word. */
  ghost predicate SendsStale<T>(h: nat, m: Sim<T>, es: seq<Event<T>>)
    requires Shaped(h, m.s)
  {
    TimelyRun(h, m, es) && Run(h, m, es).stream == [] && |Run(h, m, es).sent| == 1
  }

  lemma StaleCons<T>(h: nat, m: Sim<T>, e: Event<T>, es: seq<Event<T>>)
    requires Shaped(h, m.s) && Shaped(h, Tick(h, m, e).s)
    requires Timely(h, m, e) && SendsStale(h, Tick(h, m, e), es)
    ensures SendsStale(h, m, [e] + es)
  {
    hide Tick, Timely, Run, TimelyRun;
    RunCons(h, m, e, es);
  }

  /** An unread token sends what the buffer holds. */
  lemma StaleToken<T>(h: nat, m: Sim<T>) returns (es: seq<Event<T>>)
    requires Shaped(h, m.s) && m.stream == m.sent == [] && m.s.parent.Waiting? && m.s.tokens > 0
    ensures SendsStale(h, m, es)
  {
    var r := Tick(h, m, ParentRead);
    assert Shaped(h, r.s);
    SendNow(h, r);
    StaleCons(h, m, ParentRead, [ParentSend]);
    es := [ParentRead] + [ParentSend];
  }

  lemma SendNow<T>(h: nat, m: Sim<T>)
    requires Shaped(h, m.s) && m.stream == m.sent == [] && m.s.parent.Sending?
    ensures SendsStale(h, m, [ParentSend])
  {
    var e: Event<T> := ParentSend;
    assert [] + [e] == [e];
    Unroll(h, m, [], e);
  }

  /** A copy that was under way ends in such a token. */
  lemma {:induction false} StaleCopy<T>(h: nat, m: Sim<T>) returns (es: seq<Event<T>>)
    requires Shaped(h, m.s) && m.stream == m.sent == [] && m.s.parent.Waiting?
    requires m.s.child.Copying? && m.next <= h
    ensures SendsStale(h, m, es)
    decreases h - m.s.child.at
  {
    hide SendsStale;
    var c := Tick(h, m, ChildCopy);
    assert Shaped(h, c.s);
    var rest;
    if c.s.child.Copying? {
      rest := StaleCopy(h, c);
    } else {
      rest := StaleToken(h, c);
    }
    StaleCons(h, m, ChildCopy, rest);
    es := [ChildCopy] + rest;
  }

  /** The stream of the next client is gap-free in every timely run exactly when the
      child waits for the lower half, no copy is under way and no token is unread. */
  lemma NextStreamIsGapFree<T(!new)>(h: nat, s: State<T>)
    requires Shaped(h, s)
    ensures Shaped(h, Reconnected(s).s)
    ensures GapFree(h, Reconnected(s)) <==> s.limit == h && s.child.AtPoll? && s.tokens == 0
  {
    var m := Reconnected(s);
    if s.limit == h && s.child.AtPoll? && s.tokens == 0 {
      assert Inv(h, m);
      forall es: seq<Event<T>> | TimelyRun(h, m, es)
        ensures Run(h, m, es).sent <= Run(h, m, es).stream
      {
        RunKeepsInv(h, m, es);
      }
    } else {
      var es;
      if s.tokens > 0 {
        es := StaleToken(h, m);
      } else if s.child.Copying? {
        es := StaleCopy(h, m);
      } else {
        var p := Tick(h, m, ChildPoll);
        assert Shaped(h, p.s) && p.s.child == Copying(0);
        es := StaleCopy(h, p);
        StaleCons(h, m, ChildPoll, es);
        es := [ChildPoll] + es;
      }
      assert TimelyRun(h, m, es) && !(Run(h, m, es).sent <= Run(h, m, es).stream);
    }
  }

  // -------------------------------------------------------------- the programs

  /** The ring, the shared buffer and the variables of the two processes in place. Each
      method is one atomic step of one of them; `past` are the steps since `origin`, the
      state in which the current stream began. */
  class Recorder<T> {
    const h: nat
    const ring: array<T>
    const buf: array<T>
    var position: nat
    var limit: nat
    var offset: nat
    var child: Child
    var tokens: nat
    var half: nat
    var parent: Parent
    ghost var origin: Sim<T>
    ghost var past: seq<Event<T>>

    ghost predicate Valid()
      reads this, ring, buf
    {
      ring != buf && Shaped(h, origin.s) && View() == Run(h, origin, past).s
    }

    ghost function View(): State<T>
      reads this, ring, buf
    {
      State(ring[..], position, limit, offset, child, buf[..], tokens, half, parent)
    }

    constructor (h: nat, ring: array<T>, buf: array<T>)
      requires 0 < h && ring != buf && ring.Length == buf.Length == 2 * h
      ensures this.ring == ring && this.buf == buf && this.h == h
      ensures Valid() && past == [] && origin == Start(h, ring[..], buf[..])
    {
      this.h, this.ring, this.buf := h, ring, buf;
      position, limit, offset, child := 0, h, 0, AtPoll;
      tokens, half, parent := 0, 0, Waiting;
      origin, past := Start(h, ring[..], buf[..]), [];
    }

    /** Recording a step that has been taken. */
    ghost method Log(e: Event<T>, was: State<T>)
      requires Shaped(h, origin.s) && ring != buf && was == Run(h, origin, past).s
      requires View() == Step(h, was, e)
      modifies this`past
      ensures Valid() && past == old(past) + [e]
    {
      Unroll(h, origin, past, e);
      hide Run, Step;
      past := past + [e];
    }

    /** The RAM writer stores one word and advances its position register. */
    method HardwareWrite(x: T)
      requires Valid()
      modifies this`position, this`past, ring
      ensures Valid() && past == old(past) + [Write(x)]
      ensures View() == Step(h, old(View()), Write(x))
    {
      hide Run;
      ghost var was := View();
      ring[position] := x;
      position := Wrap(position + 1, 2 * h);
      Log(Write(x), was);
    }

    /** The child reads the position and decides whether a half is ready. */
    method Poll()
      requires Valid()
      modifies this`limit, this`offset, this`child, this`past
      ensures Valid() && past == old(past) + [ChildPoll]
      ensures View() == Step(h, old(View()), ChildPoll)
    {
      hide Run;
      ghost var was := View();
      if child.AtPoll? && ((limit > 0 && position > limit) || (limit == 0 && position < h)) {
        offset := if limit > 0 then 0 else h;
        limit := if limit > 0 then 0 else h;
        child := Copying(0);
      }
      Log(ChildPoll, was);
    }

    /** One word of the memcpy; after the last one the token goes into the pipe. */
    method CopyWord()
      requires Valid()
      modifies this`child, this`tokens, this`past, buf
      ensures Valid() && past == old(past) + [ChildCopy]
      ensures View() == Step(h, old(View()), ChildCopy)
    {
      hide Run;
      ghost var was := View();
      if child.Copying? {
        var at := child.at;
        buf[offset + at] := ring[offset + at];
        if at + 1 < h {
          child := Copying(at + 1);
        } else {
          child := AtPoll;
          tokens := tokens + 1;
        }
      }
      Log(ChildCopy, was);
    }

    method ReadToken()
      requires Valid()
      modifies this`tokens, this`parent, this`past
      ensures Valid() && past == old(past) + [ParentRead]
      ensures View() == Step(h, old(View()), ParentRead)
    {
      hide Run;
      ghost var was := View();
      if parent.Waiting? && tokens > 0 {
        tokens := tokens - 1;
        parent := Sending(0);
      }
      Log(ParentRead, was);
    }

    /** One word of the send or fwrite of the current half. */
    method SendWord() returns (words: seq<T>)
      requires Valid()
      modifies this`parent, this`half, this`past
      ensures Valid() && past == old(past) + [ParentSend]
      ensures View() == Step(h, old(View()), ParentSend)
      ensures Run(h, origin, past).sent == Run(h, origin, old(past)).sent + words
    {
      SentOf(h, origin, past);
      hide Run;
      ghost var was := View();
      words := if parent.Sending? then [buf[half + parent.at]] else [];
      if parent.Sending? {
        if parent.at + 1 < h {
          parent := Sending(parent.at + 1);
        } else {
          parent := Waiting;
          half := h - half;
        }
      }
      Log(ParentSend, was);
    }

    /** The server leaves its send loop, resets the hardware and accepts a client. */
    method Reconnect()
      requires Valid()
      modifies this`position, this`half, this`parent, this`origin, this`past
      ensures Valid() && past == [] && origin == Reconnected(old(View()))
    {
      origin, past := Reconnected(View()), [];
      position, half, parent := 0, 0, Waiting;
    }
  }
}
