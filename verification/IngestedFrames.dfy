/** From the bytes of the captured frames to the verdicts: the parsers, the engine and the flow tables in one. */
module IngestedFrames {
  import opened Bytes
  import opened Options
  import opened PatternSpec
  import opened FlowKey
  import opened Pipeline
  import opened EngineTheorems
  import opened EndToEnd
  import Runs = WorkerRuns
  import Wire = Frames
  import Parser = PacketParsing

  function TupleOf(p: Parser.Packet): FiveTuple
  {
    FiveTuple(p.src, p.dst, p.srcPort, p.dstPort, p.protocol)
  }

  /** What the ingestion loop makes of the raw frames; those the parsers refuse are skipped. */
  function PacketsOf(raws: seq<Word>): seq<Packet>
  {
    if raws == [] then []
    else
      var n := |raws| - 1;
      PacketsOf(raws[..n]) + match Parser.Parse(raws[n])
                             case None => []
                             case Some(p) => [Packet(TupleOf(p), p.payload)]
  }

  /** The TCP flags that travel with those packets. */
  function FlagsOf(raws: seq<Word>): (flags: seq<nat>)
    ensures |flags| == |PacketsOf(raws)|
  {
    if raws == [] then []
    else
      var n := |raws| - 1;
      FlagsOf(raws[..n]) + match Parser.Parse(raws[n])
                           case None => []
                           case Some(p) => [p.flags]
  }

  /** A captured frame, or bytes that are none. */
  datatype Item = Framed(frame: Wire.Frame) | Junk(raw: Word)

  ghost predicate ItemOk(item: Item)
  {
    match item
    case Framed(f) => Wire.Valid(f)
    case Junk(raw) => forall f :: Wire.Valid(f) ==> Wire.Wire(f) != raw
  }

  ghost predicate ItemsOk(items: seq<Item>)
  {
    forall i :: 0 <= i < |items| ==> ItemOk(items[i])
  }

  function RawOf(item: Item): Word
  {
    match item
    case Framed(f) => Wire.Wire(f)
    case Junk(raw) => raw
  }

  function Raws(items: seq<Item>): (raws: seq<Word>)
    ensures |raws| == |items|
  {
    if items == [] then [] else Raws(items[..|items| - 1]) + [RawOf(items[|items| - 1])]
  }

  /** What one parsed frame adds to flow k. */
  function Adds(parsed: Option<Parser.Packet>, k: FiveTuple): seq<Sent>
  {
    match parsed
    case None => []
    case Some(p) => if Canonical(TupleOf(p)) == k then [Sent(p.flags, Clip(p.payload))] else []
  }

  /** The five-tuple in a frame's own headers. */
  function TupleIn(f: Wire.Frame): FiveTuple
  {
    FiveTuple(f.ip.src, f.ip.dst, f.transport.srcPort, f.transport.dstPort, f.ip.protocol)
  }

  /** What a frame is to flow k: its own flags, and its own payload as far as a slot holds it. */
  function InFrame(f: Wire.Frame, k: FiveTuple): seq<Sent>
  {
    if Canonical(TupleIn(f)) != k then []
    else [Sent(if f.transport.Tcp? then f.transport.flags else 0,
               if |f.payload| > 2048 then f.payload[..2048] else f.payload)]
  }

  /** The flow k in the frames themselves: flags, and the payload as far as a slot holds it. */
  function InFrames(items: seq<Item>, k: FiveTuple): seq<Sent>
  {
    if items == [] then []
    else
      var n := |items| - 1;
      InFrames(items[..n], k) + match items[n] case Junk(_) => [] case Framed(f) => InFrame(f, k)
  }

  lemma {:induction false} OneMoreItem(items: seq<Item>, item: Item)
    requires ItemsOk(items) && ItemOk(item)
    ensures ItemsOk(items + [item]) && Raws(items + [item]) == Raws(items) + [RawOf(item)]
  {
    assert (items + [item])[..|items|] == items;
  }

  /** Every capture is a sequence of such items. */
  lemma {:induction false} ItemsExist(raws: seq<Word>) returns (items: seq<Item>)
    ensures ItemsOk(items) && Raws(items) == raws
  {
    items := [];
    if raws != [] {
      var n := |raws| - 1;
      var before := ItemsExist(raws[..n]);
      var last := ItemFor(raws[n]);
      OneMoreItem(before, last);
      items := before + [last];
    }
  }

  lemma {:induction false} ItemFor(raw: Word) returns (item: Item)
    ensures ItemOk(item) && RawOf(item) == raw
  {
    Parser.AcceptedIff(raw);
    if f :| Wire.Valid(f) && Wire.Wire(f) == raw {
      item := Framed(f);
    } else {
      item := Junk(raw);
    }
  }

  lemma {:induction false} ItemParsed(item: Item)
    requires ItemOk(item)
    ensures Parser.Parse(RawOf(item)) == if item.Junk? then None else Some(Parser.Meaning(item.frame))
  {
    match item
    case Junk(raw) => Parser.AcceptedIff(raw);
    case Framed(f) => Parser.ParserInvertsWriter(f);
  }

  /** A frame becomes a packet with the five-tuple of its headers, its payload and its flags. */
  lemma {:induction false} FrameIngested(f: Wire.Frame)
    requires Wire.Valid(f)
    ensures PacketsOf([Wire.Wire(f)])
            == [Packet(FiveTuple(f.ip.src, f.ip.dst, f.transport.srcPort, f.transport.dstPort, f.ip.protocol),
                       f.payload)]
    ensures FlagsOf([Wire.Wire(f)]) == [if f.transport.Tcp? then f.transport.flags else 0]
  {
    Parser.ParserInvertsWriter(f);
    assert [Wire.Wire(f)][..0] == [];
  }

  lemma {:induction false} CapturedLocal(ps: seq<Packet>, fs: seq<nat>, qs: seq<Packet>, gs: seq<nat>,
                                         k: FiveTuple, n: nat)
    requires |ps| == |fs| && |qs| == |gs| && n <= |ps|
    ensures Captured(ps + qs, fs + gs, k, n) == Captured(ps, fs, k, n)
  {
    if n > 0 {
      CapturedLocal(ps, fs, qs, gs, k, n - 1);
    }
  }

  lemma {:induction false} IngestOne(raws: seq<Word>, k: FiveTuple)
    requires raws != []
    ensures var n := |raws| - 1;
            Captured(PacketsOf(raws), FlagsOf(raws), k, |PacketsOf(raws)|)
            == Captured(PacketsOf(raws[..n]), FlagsOf(raws[..n]), k, |PacketsOf(raws[..n])|)
               + Adds(Parser.Parse(raws[n]), k)
  {
    var n := |raws| - 1;
    var ps, fs := PacketsOf(raws[..n]), FlagsOf(raws[..n]);
    match Parser.Parse(raws[n]) {
      case None =>
        assert ps + [] == ps && fs + [] == fs;
      case Some(p) =>
        CapturedLocal(ps, fs, [Packet(TupleOf(p), p.payload)], [p.flags], k, |ps|);
    }
  }

  /** One captured byte string adds to flow k what stands in it, if it is a frame. */
  lemma {:induction false} ItemAdds(item: Item, k: FiveTuple)
    requires ItemOk(item)
    ensures Adds(Parser.Parse(RawOf(item)), k) == match item case Junk(_) => [] case Framed(f) => InFrame(f, k)
  {
    ItemParsed(item);
  }

  /** The engine's input for flow k is the flow as it stands in the frames. */
  lemma {:induction false} FramesCaptured(items: seq<Item>, k: FiveTuple)
    requires ItemsOk(items)
    ensures Captured(PacketsOf(Raws(items)), FlagsOf(Raws(items)), k, |PacketsOf(Raws(items))|) == InFrames(items, k)
  {
    if items != [] {
      var n := |items| - 1;
      assert Raws(items)[..n] == Raws(items[..n]) && Raws(items)[n] == RawOf(items[n]);
      FramesCaptured(items[..n], k);
      IngestOne(Raws(items), k);
      ItemAdds(items[n], k);
    }
  }

  /**
   The verdict on a tracked flow in terms of the bytes captured: of the frames, whatever tags, options
   and padding they carry, and whatever lies between them, exactly the flow's payloads from its first
   opening packet on since its entry was last dropped decide, in capture order and under any interleaving
   of the threads. A fragment is read like a whole packet, as the ingestion loop does.
   */
  lemma {:induction false} VerdictOfFrames(items: seq<Item>, cfg: Config, turns: seq<Turn>, pats: seq<Word>,
                                           ops: seq<Runs.Op>, k: FiveTuple) returns (start: nat, seen: nat)
    requires ItemsOk(items) && cfg.packets == PacketsOf(Raws(items)) && ConfigOk(cfg) && k.protocol == TCP
    requires Life(cfg, FlagsOf(Raws(items)), turns, WorkerOf(cfg, k), ops)
    requires NonemptyPatterns(pats) && Runs.Monotone(ops) && k in Runs.RunOps(pats, ops).0.flows
    ensures var flow := InFrames(items, k);
            && DroppedAt(pats, ops, k) <= start < seen == |InLife(ops, k)| <= |flow|
            && Opens(flow[start]) && NoneOpens(flow, DroppedAt(pats, ops, k), start)
            && Judged(pats, Bodies(flow[start..seen]), Runs.RunOps(pats, ops).0.flows[k].verdict)
            && (CaughtUp(cfg, Reach(cfg, turns), WorkerOf(cfg, k)) ==> seen == |flow|)
  {
    FramesCaptured(items, k);
    start, seen := VerdictOfCapture(cfg, FlagsOf(Raws(items)), turns, pats, ops, k);
  }
}
