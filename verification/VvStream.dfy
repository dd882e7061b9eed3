/** The streaming decoder as a state machine over chunks: it does not depend on how the input is cut, and agrees with
    decoding at once. */
module VvStream {
  import opened LittleEndian
  import opened VvFrame

  /** The states of vv_dstream with the unread input and the output so far; an error or a finished frame is final. */
  datatype Stream =
    | InHeader(pending: seq<byte>)
    | InBlocks(pending: seq<byte>, hd: Head, out: seq<byte>)
    | InFooter(pending: seq<byte>, hd: Head, out: seq<byte>)
    | Finished(out: seq<byte>)
    | Broken(why: Code)

  const START := InHeader([])

  predicate StreamOk(st: Stream, cap: nat) {
    ((st.InBlocks? || st.InFooter?) ==> HeadOk(st.hd) && |st.out| <= cap) && (st.Finished? ==> |st.out| <= cap)
    && (st.InFooter? ==> HasChecksum(st.hd))
  }

  predicate Live(st: Stream) { st.InHeader? || st.InBlocks? || st.InFooter? }

  /** dstream_append. */
  function Push(st: Stream, chunk: seq<byte>): (u: Stream) {
    match st
    case InHeader(p) => InHeader(p + chunk)
    case InBlocks(p, hd, out) => InBlocks(p + chunk, hd, out)
    case InFooter(p, hd, out) => InFooter(p + chunk, hd, out)
    case Finished(_) => st
    case Broken(_) => st
  }

  /** One step of the state machine; nothing changes when more input is needed. */
  function Step(dec: Decoder, cap: nat, st: Stream): (u: Stream)
    requires StreamOk(st, cap)
    ensures StreamOk(u, cap) && (u != st ==> Live(st) && (Live(u) ==> |u.pending| < |st.pending|))
  {
    match st
    case InHeader(p) =>
      if |p| < HEADER then st
      else
        (match ReadHead(p)
         case BadHead(why) => Broken(why)
         case GoodHead(hd) => InBlocks(p[HEADER..], hd, []))
    case InBlocks(p, hd, out) =>
      (match ReadBlock(dec, hd, p, out, cap - |out|)
       case Wait => st
       case Stop(why) => Broken(why)
       case Block(more, used, last) =>
         if !last then InBlocks(p[used..], hd, out + more)
         else if HasChecksum(hd) then InFooter(p[used..], hd, out + more)
         else Finished(Unfilter(hd, out + more)))
    case InFooter(p, hd, out) =>
      (match ReadFoot(hd, p, out)
       case Partial => st
       case Refused(why) => Broken(why)
       case Frame(bytes, _) => Finished(bytes))
    case Finished(_) => st
    case Broken(_) => st
  }

  /** Steps until nothing changes. */
  function Settle(dec: Decoder, cap: nat, st: Stream): (u: Stream)
    requires StreamOk(st, cap)
    ensures StreamOk(u, cap)
    decreases if Live(st) then 1 + |st.pending| else 0
  {
    var u := Step(dec, cap, st);
    if u == st then st else Settle(dec, cap, u)
  }

  /** vv_dstream_decompress_chunk. */
  function Feed(dec: Decoder, cap: nat, st: Stream, chunk: seq<byte>): (u: Stream)
    requires StreamOk(st, cap)
    ensures StreamOk(u, cap)
  {
    Settle(dec, cap, Push(st, chunk))
  }

  // ---------------------------------------------------------------- independence of the chunks

  lemma PushOk(st: Stream, chunk: seq<byte>, cap: nat)
    requires StreamOk(st, cap)
    ensures StreamOk(Push(st, chunk), cap)
  {
  }

  /** What a step does it does with more input behind, too. */
  lemma StepLocal(dec: Decoder, cap: nat, st: Stream, chunk: seq<byte>)
    requires StreamOk(st, cap) && Step(dec, cap, st) != st
    ensures Step(dec, cap, Push(st, chunk)) == Push(Step(dec, cap, st), chunk)
  {
    hide ReadBlock, ReadHead, Unfilter;
    match st
    case InHeader(p) =>
      HeadLocal(p, chunk);
      assert (p + chunk)[HEADER..] == p[HEADER..] + chunk;
    case InBlocks(p, hd, out) =>
      ReadBlockLocal(dec, hd, p, chunk, out, cap - |out|);
      var b := ReadBlock(dec, hd, p, out, cap - |out|);
      if b.Block? {
        assert (p + chunk)[b.used..] == p[b.used..] + chunk;
      }
    case InFooter(p, hd, out) =>
      FootLocal(hd, p, chunk, out);
    case Finished(_) =>
    case Broken(_) =>
  }

  lemma HeadLocal(p: seq<byte>, t: seq<byte>)
    requires |p| >= HEADER
    ensures ReadHead(p + t) == ReadHead(p)
  {
    hide Word;
  }

  lemma FootLocal(hd: Head, s: seq<byte>, t: seq<byte>, h: seq<byte>)
    requires !ReadFoot(hd, s, h).Partial?
    ensures ReadFoot(hd, s + t, h) == ReadFoot(hd, s, h)
  {
    hide Unfilter, Word;
    if HasChecksum(hd) {
      assert (s + t)[..8] == s[..8];
    }
  }

  /** Settling before more input arrives makes no difference. */
  lemma {:induction false} SettleThenFeed(dec: Decoder, cap: nat, st: Stream, chunk: seq<byte>)
    requires StreamOk(st, cap)
    ensures Feed(dec, cap, Settle(dec, cap, st), chunk) == Feed(dec, cap, st, chunk)
    decreases if Live(st) then 1 + |st.pending| else 0
  {
    hide Step;
    var u := Step(dec, cap, st);
    if u != st {
      StepLocal(dec, cap, st, chunk);
      PushOk(st, chunk, cap);
      SettleThenFeed(dec, cap, u, chunk);
      if Push(u, chunk) == Push(st, chunk) {
        PushInjective(st, u, chunk);
      }
    }
  }

  lemma PushInjective(st: Stream, u: Stream, chunk: seq<byte>)
    requires Push(st, chunk) == Push(u, chunk)
    ensures st == u
  {
    if Live(st) {
      var p, q := st.pending, u.pending;
      assert p == (p + chunk)[..|p|] && q == (q + chunk)[..|q|];
    }
  }

  /** Two chunks are as good as one. */
  lemma FeedTwice(dec: Decoder, cap: nat, st: Stream, a: seq<byte>, b: seq<byte>)
    requires StreamOk(st, cap)
    ensures Feed(dec, cap, Feed(dec, cap, st, a), b) == Feed(dec, cap, st, a + b)
  {
    hide Settle;
    PushOk(st, a, cap);
    SettleThenFeed(dec, cap, Push(st, a), b);
    PushTwice(st, a, b);
  }

  lemma PushTwice(st: Stream, a: seq<byte>, b: seq<byte>)
    ensures Push(Push(st, a), b) == Push(st, a + b)
  {
    if Live(st) {
      assert st.pending + a + b == st.pending + (a + b);
    }
  }

  function Joined(chunks: seq<seq<byte>>): (s: seq<byte>) {
    if chunks == [] then [] else chunks[0] + Joined(chunks[1..])
  }

  /** A whole run over chunks. */
  function Run(dec: Decoder, cap: nat, st: Stream, chunks: seq<seq<byte>>): (u: Stream)
    requires StreamOk(st, cap)
    ensures StreamOk(u, cap)
    decreases |chunks|
  {
    if chunks == [] then st else Run(dec, cap, Feed(dec, cap, st, chunks[0]), chunks[1..])
  }

  /** A run over at least one chunk is one call with all of them joined. */
  lemma {:induction false} RunIsFeed(dec: Decoder, cap: nat, st: Stream, chunks: seq<seq<byte>>)
    requires StreamOk(st, cap) && chunks != []
    ensures Run(dec, cap, st, chunks) == Feed(dec, cap, st, Joined(chunks))
    decreases |chunks|
  {
    hide Feed;
    if |chunks| == 1 {
      assert Joined(chunks[1..]) == [] && chunks[0] + [] == chunks[0];
    } else {
      RunIsFeed(dec, cap, Feed(dec, cap, st, chunks[0]), chunks[1..]);
      FeedTwice(dec, cap, st, chunks[0], Joined(chunks[1..]));
    }
  }

  /** The final state and output do not depend on the chunks. */
  lemma AnyChunks(dec: Decoder, cap: nat, chunks: seq<seq<byte>>, others: seq<seq<byte>>)
    requires chunks != [] && others != [] && Joined(chunks) == Joined(others)
    ensures Run(dec, cap, START, chunks) == Run(dec, cap, START, others)
  {
    hide Run;
    RunIsFeed(dec, cap, START, chunks);
    RunIsFeed(dec, cap, START, others);
  }

  // ---------------------------------------------------------------- agreement with decoding at once

  /** The state the machine settles in over an input that begins with the frame r. */
  predicate Ends(u: Stream, r: FrameRead) {
    match r
    case Partial => Live(u)
    case Refused(why) => u == Broken(why)
    case Frame(out, _) => u == Finished(out)
  }

  lemma SettleStep(dec: Decoder, cap: nat, st: Stream)
    requires StreamOk(st, cap)
    ensures Settle(dec, cap, st) == if Step(dec, cap, st) == st then st else Settle(dec, cap, Step(dec, cap, st))
  {
  }

  lemma SettleFinal(dec: Decoder, cap: nat, st: Stream)
    requires StreamOk(st, cap) && !Live(st)
    ensures Settle(dec, cap, st) == st
  {
  }

  lemma FooterEnds(dec: Decoder, cap: nat, s: seq<byte>, hd: Head, out: seq<byte>)
    requires HeadOk(hd) && |out| <= cap && HasChecksum(hd)
    ensures Ends(Settle(dec, cap, InFooter(s, hd, out)), ReadFoot(hd, s, out))
  {
    hide Settle, Unfilter, ReadFoot;
    var st := InFooter(s, hd, out);
    SettleStep(dec, cap, st);
    var u := Step(dec, cap, st);
    if u != st {
      SettleFinal(dec, cap, u);
    }
  }

  lemma {:induction false} BlocksEnd(dec: Decoder, cap: nat, s: seq<byte>, hd: Head, out: seq<byte>)
    requires HeadOk(hd) && |out| <= cap
    ensures Ends(Settle(dec, cap, InBlocks(s, hd, out)), ReadBlocks(dec, hd, s, out, cap))
    decreases |s|
  {
    hide Settle, ReadBlock, Unfilter;
    var st := InBlocks(s, hd, out);
    SettleStep(dec, cap, st);
    var b := ReadBlock(dec, hd, s, out, cap - |out|);
    match b
    case Wait =>
    case Stop(_) =>
      SettleFinal(dec, cap, Step(dec, cap, st));
    case Block(more, used, last) =>
      if !last {
        BlocksEnd(dec, cap, s[used..], hd, out + more);
      } else if HasChecksum(hd) {
        FooterEnds(dec, cap, s[used..], hd, out + more);
      } else {
        SettleFinal(dec, cap, Step(dec, cap, st));
      }
  }

  /** Fed an input, the machine ends as decoding the frame at its start does. */
  lemma FeedReads(dec: Decoder, cap: nat, s: seq<byte>)
    ensures Ends(Feed(dec, cap, START, s), ReadFrame(dec, s, cap))
  {
    hide Settle, ReadBlocks, ReadHead;
    assert Push(START, s) == InHeader(s) by {
      assert [] + s == s;
    }
    var st := InHeader(s);
    SettleStep(dec, cap, st);
    if |s| >= HEADER {
      match ReadHead(s)
      case BadHead(_) =>
        SettleFinal(dec, cap, Step(dec, cap, st));
      case GoodHead(hd) =>
        BlocksEnd(dec, cap, s[HEADER..], hd, []);
    }
  }

  /** However a single frame is cut, the machine finishes with bytes exactly when decoding at once yields them; an
      input it gives up on decoding at once gives up on for the same reason, and one it waits for more of is refused as
      corrupt. */
  lemma SameAsAtOnce(dec: Decoder, cap: nat, chunks: seq<seq<byte>>)
    requires chunks != []
    ensures var s, u := Joined(chunks), Run(dec, cap, START, chunks);
            (u.Broken? ==> Decompress(dec, s, cap) == Err(u.why))
            && (Live(u) ==> Decompress(dec, s, cap) == Err(Corrupt))
            && (ReadFrame(dec, s, cap).Frame? && ReadFrame(dec, s, cap).used == |s|
                ==> u.Finished? && Decompress(dec, s, cap) == Bytes(u.out))
            && (u.Finished? ==> ReadFrame(dec, s, cap).Frame? && u.out == ReadFrame(dec, s, cap).out)
  {
    hide Run, ReadFrame, Feed;
    RunIsFeed(dec, cap, START, chunks);
    FeedReads(dec, cap, Joined(chunks));
  }
}
