/** Charging for responses: every response is charged exactly once, however it ends, for what was
    scanned of it by then, and the ledger is the sum of those charges. */
module Billing {
  import opened Options
  import opened UsageScan

  /** Prices per million tokens. */
  datatype Pricing = Pricing(input: real, output: real)

  datatype Ledger = Ledger(requests: nat, input: nat, output: nat, cost: real, unpriced: nat)

  const EMPTY := Ledger(0, 0, 0, 0.0, 0)

  function Cost(p: Option<Pricing>, t: Totals): real {
    match p
    case None => 0.0
    case Some(price) => (t.input as real * price.input + t.output as real * price.output) / 1_000_000.0
  }

  /** What one response adds to the ledger. */
  function Item(p: Option<Pricing>, t: Totals): Ledger {
    Ledger(1, t.input, t.output, Cost(p, t), if p.None? && t.input + t.output > 0 then 1 else 0)
  }

  function Add(a: Ledger, b: Ledger): Ledger {
    Ledger(a.requests + b.requests, a.input + b.input, a.output + b.output, a.cost + b.cost, a.unpriced + b.unpriced)
  }

  /** What one response costs: prices are per million tokens of their side; without a price it costs
      nothing and is counted as unpriced exactly if it used tokens. */
  lemma ItemIs(p: Option<Pricing>, t: Totals)
    ensures var i := Item(p, t);
            && i.requests == 1 && i.input == t.input && i.output == t.output
            && (p.Some? ==> i.cost * 1_000_000.0 == t.input as real * p.value.input + t.output as real * p.value.output)
            && (p.None? ==> i.cost == 0.0)
            && (i.unpriced == 1 <==> p.None? && (t.input > 0 || t.output > 0))
            && i.unpriced <= 1
  {
  }

  class Shared {
    var requests: nat
    var input: nat
    var output: nat
    var cost: real
    var unpriced: nat

    constructor ()
      ensures View() == EMPTY
    {
      requests, input, output, cost, unpriced := 0, 0, 0, 0.0, 0;
    }

    function View(): Ledger
      reads this
    {
      Ledger(requests, input, output, cost, unpriced)
    }

    method Charge(pricing: Option<Pricing>, t: Totals) returns (c: real)
      modifies this
      ensures View() == Add(old(View()), Item(pricing, t)) && c == Cost(pricing, t)
    {
      c := if pricing.None? then 0.0
           else (t.input as real * pricing.value.input + t.output as real * pricing.value.output) / 1_000_000.0;
      requests := requests + 1;
      input := input + t.input;
      output := output + t.output;
      cost := cost + c;
      if pricing.None? && t.input + t.output > 0 {
        unpriced := unpriced + 1;
      }
    }
  }

  /** A response being streamed; `pending` says that it has not been charged yet. */
  class ResponseStream {
    const scan: UsageScanner
    const shared: Shared
    const pricing: Option<Pricing>
    var pending: bool

    constructor (scan: UsageScanner, shared: Shared, pricing: Option<Pricing>)
      ensures this.scan == scan && this.shared == shared && this.pricing == pricing && pending
    {
      this.scan, this.shared, this.pricing, pending := scan, shared, pricing, true;
    }

    /** Runs when the response ends, when it fails and when it is dropped. */
    method FinishOnce()
      modifies this, scan, shared
      ensures !pending
      ensures !old(pending) ==> shared.View() == old(shared.View()) && scan.View() == old(scan.View())
      ensures old(pending) ==>
                shared.View() == Add(old(shared.View()), Item(pricing, Finish(scan.parse, old(scan.View()))))
    {
      if !pending {
        return;
      }
      pending := false;
      var t := scan.FinishScan();
      var _ := shared.Charge(pricing, t);
    }
  }

  // ---------------------------------------------------------------- runs of many responses

  /** One response: the chunks that reached the scanner, and whether it is still to be charged. */
  datatype Stream = Stream(sse: bool, pricing: Option<Pricing>, chunks: seq<string>, scan: State, pending: bool)

  datatype Event =
    | Arrive(i: nat, chunk: string)
    | End(i: nat)                     // the end of the body, an upstream error, or a drop

  datatype World = World(streams: seq<Stream>, ledger: Ledger)

  predicate Enabled(w: World, e: Event) {
    e.i < |w.streams| && (e.Arrive? ==> w.streams[e.i].pending)
  }

  function Apply(parse: Parser, w: World, e: Event): World
    requires Enabled(w, e)
  {
    var s := w.streams[e.i];
    match e
    case Arrive(i, chunk) =>
      w.(streams := w.streams[i := s.(chunks := s.chunks + [chunk], scan := Feed(parse, s.scan, chunk))])
    case End(i) =>
      if s.pending then
        World(w.streams[i := s.(pending := false)], Add(w.ledger, Item(s.pricing, Finish(parse, s.scan))))
      else w
  }

  predicate Legal(parse: Parser, w: World, es: seq<Event>)
    decreases |es|
  {
    es == [] || (Enabled(w, es[0]) && Legal(parse, Apply(parse, w, es[0]), es[1..]))
  }

  function Exec(parse: Parser, w: World, es: seq<Event>): World
    requires Legal(parse, w, es)
    decreases |es|
  {
    if es == [] then w else Exec(parse, Apply(parse, w, es[0]), es[1..])
  }

  /** The totals of a body, scanned in one piece. */
  function BodyTotals(parse: Parser, sse: bool, body: string): Totals {
    if sse then StreamTotals(parse, body)
    else ValueTotals(parse(if |body| > MAX_USAGE_SCAN_BYTES then [] else body))
  }

  function Price(parse: Parser, s: Stream): Ledger {
    if s.pending then EMPTY else Item(s.pricing, Finish(parse, s.scan))
  }

  function Sum(items: seq<Ledger>): Ledger {
    if items == [] then EMPTY else Add(Sum(items[..|items| - 1]), items[|items| - 1])
  }

  function Prices(parse: Parser, streams: seq<Stream>): (items: seq<Ledger>)
    ensures |items| == |streams|
    ensures forall i :: 0 <= i < |streams| ==> items[i] == Price(parse, streams[i])
  {
    seq(|streams|, i requires 0 <= i < |streams| => Price(parse, streams[i]))
  }

  /** The charges of the responses that have ended. */
  function Bill(parse: Parser, streams: seq<Stream>): Ledger {
    Sum(Prices(parse, streams))
  }

  lemma {:induction false} SumOfUpdate(items: seq<Ledger>, i: nat, x: Ledger)
    requires i < |items|
    ensures Add(Sum(items[i := x]), items[i]) == Add(Sum(items), x)
    decreases |items|
  {
    var n := |items| - 1;
    if i < n {
      assert items[i := x][..n] == items[..n][i := x];
      SumOfUpdate(items[..n], i, x);
    } else {
      assert items[i := x][..n] == items[..n];
    }
  }

  lemma BillOfUpdate(parse: Parser, streams: seq<Stream>, i: nat, s: Stream)
    requires i < |streams|
    ensures Add(Bill(parse, streams[i := s]), Price(parse, streams[i])) == Add(Bill(parse, streams), Price(parse, s))
  {
    SumOfUpdate(Prices(parse, streams), i, Price(parse, s));
    assert Prices(parse, streams[i := s]) == Prices(parse, streams)[i := Price(parse, s)];
  }

  ghost predicate Balanced(parse: Parser, w: World) {
    && w.ledger == Bill(parse, w.streams)
    && (forall i :: 0 <= i < |w.streams| ==> w.streams[i].scan == FeedAll(parse, w.streams[i].sse, w.streams[i].chunks))
  }

  lemma FeedNext(parse: Parser, sse: bool, chunks: seq<string>, chunk: string)
    ensures FeedAll(parse, sse, chunks + [chunk]) == Feed(parse, FeedAll(parse, sse, chunks), chunk)
  {
    assert (chunks + [chunk])[..|chunks|] == chunks;
  }

  lemma BalancedStep(parse: Parser, w: World, e: Event)
    requires Balanced(parse, w) && Enabled(w, e)
    ensures Balanced(parse, Apply(parse, w, e))
  {
    var s, t := w.streams[e.i], Apply(parse, w, e).streams[e.i];
    BillOfUpdate(parse, w.streams, e.i, t);
    if e.Arrive? {
      FeedNext(parse, s.sse, s.chunks, e.chunk);
    }
  }

  /** Over every interleaving of many responses the ledger is the bill: each response that ended is
      charged once, and one that has not ended is not charged. */
  lemma {:induction false} LedgerIsTheBill(parse: Parser, w: World, es: seq<Event>)
    requires Balanced(parse, w) && Legal(parse, w, es)
    ensures Balanced(parse, Exec(parse, w, es))
    decreases |es|
  {
    if es != [] {
      BalancedStep(parse, w, es[0]);
      LedgerIsTheBill(parse, Apply(parse, w, es[0]), es[1..]);
    }
  }

  /** A response is charged for its body and nothing else: how it was cut into chunks does not show,
      as long as a stream's chunks fit behind its pending line. */
  lemma PriceIsOfTheBody(parse: Parser, s: Stream)
    requires s.scan == FeedAll(parse, s.sse, s.chunks) && !s.pending
    requires s.sse ==> Fits(s.chunks, |s.chunks|)
    ensures Price(parse, s) == Item(s.pricing, BodyTotals(parse, s.sse, Concat(s.chunks)))
  {
    if s.sse {
      StreamIsChunkIndependent(parse, s.chunks);
    } else {
      WholeBodyIsChunkIndependent(parse, s.chunks);
    }
  }

  /** The charge for a body alone. */
  function BodyPrice(parse: Parser, s: Stream): Ledger {
    Item(s.pricing, BodyTotals(parse, s.sse, Concat(s.chunks)))
  }

  lemma {:induction false} SumCounts(items: seq<Ledger>)
    requires forall i :: 0 <= i < |items| ==> items[i].requests == 1
    ensures Sum(items).requests == |items|
  {
    if items != [] {
      SumCounts(items[..|items| - 1]);
    }
  }

  /** Once all responses have ended the ledger depends on their prices and bodies only, and counts
      each response once. */
  lemma BillIsOfTheBodies(parse: Parser, streams: seq<Stream>)
    requires forall i :: 0 <= i < |streams| ==>
               && !streams[i].pending
               && streams[i].scan == FeedAll(parse, streams[i].sse, streams[i].chunks)
               && (streams[i].sse ==> Fits(streams[i].chunks, |streams[i].chunks|))
    ensures Bill(parse, streams) == Sum(seq(|streams|, i requires 0 <= i < |streams| => BodyPrice(parse, streams[i])))
    ensures Bill(parse, streams).requests == |streams|
  {
    var bodies := seq(|streams|, i requires 0 <= i < |streams| => BodyPrice(parse, streams[i]));
    forall i | 0 <= i < |streams|
      ensures Prices(parse, streams)[i] == bodies[i]
    {
      PriceIsOfTheBody(parse, streams[i]);
    }
    assert Prices(parse, streams) == bodies;
    SumCounts(bodies);
  }

  // ---------------------------------------------------------------- the ledger, figure by figure

  function SumOf(n: nat, f: nat -> real): real {
    if n == 0 then 0.0 else SumOf(n - 1, f) + f(n - 1)
  }

  lemma {:induction false} SumOfSame(n: nat, f: nat -> real, g: nat -> real)
    requires forall i: nat :: i < n ==> f(i) == g(i)
    ensures SumOf(n, f) == SumOf(n, g)
  {
    if n > 0 {
      SumOfSame(n - 1, f, g);
    }
  }

  function Costs(items: seq<Ledger>): nat -> real {
    (i: nat) => if i < |items| then items[i].cost else 0.0
  }

  function Unpriced(items: seq<Ledger>): set<nat> {
    set i: nat | i < |items| && items[i].unpriced == 1
  }

  /** The sum of charges adds their costs and counts the unpriced among them. */
  lemma {:induction false} SumAdds(items: seq<Ledger>)
    requires forall i :: 0 <= i < |items| ==> items[i].unpriced <= 1
    ensures Sum(items).cost == SumOf(|items|, Costs(items))
    ensures Sum(items).unpriced == |Unpriced(items)|
  {
    if items != [] {
      var n := |items| - 1;
      SumAdds(items[..n]);
      SumOfSame(n, Costs(items[..n]), Costs(items));
      assert Unpriced(items) == Unpriced(items[..n]) + if items[n].unpriced == 1 then {n} else {};
    }
  }
}
