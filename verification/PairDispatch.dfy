/** Dispatching the two market orders of a pair, leg A first. */
module PairDispatch {
  import opened Options
  import opened OrderIds
  import opened IdTexts

  datatype LegOrder = LegOrder(leg: Leg, clOrdId: string, ticker: string, side: string, quantity: real,
                               orderType: string, price: real, daytrade: bool, env: string)

  datatype PairRequest = PairRequest(
    pair: string, tickerA: string, sideA: string, quantityA: real, tickerB: string, sideB: string, quantityB: real,
    action: string, daytrade: bool, env: string, at: Instant)

  /** What becomes of one POST: whether the agent takes the order, and whether the call returns normally. */
  datatype PostFate = PostFate(accepted: bool, replied: bool)

  /** A POST that returns normally carries the agent's ok flag. */
  type Post = f: PostFate | f.replied ==> f.accepted witness PostFate(false, false)

  datatype PairResult = PairResult(ok: bool, nakedLeg: Option<Leg>, clA: string, clB: string)

  function OrderOf(digest: string -> string, r: PairRequest, leg: Leg): LegOrder {
    var cl := MakePairClOrdId(digest, r.pair, leg, r.action, r.at);
    if leg == LegA then LegOrder(LegA, cl, r.tickerA, Lower(r.sideA), r.quantityA, "market", -1.0, r.daytrade, r.env)
    else LegOrder(LegB, cl, r.tickerB, Lower(r.sideB), r.quantityB, "market", -1.0, r.daytrade, r.env)
  }

  // ------------------------------------------------------------------------------------------
  // What an order says

  /** The id of a leg, before it is hashed for its length. */
  function LegText(r: PairRequest, leg: Leg): string {
    Joined(["pairs", r.pair, if leg.LegA? then "a" else "b", r.action, IsoMinute(r.at)])
  }

  predicate IsLegId(digest: string -> string, r: PairRequest, leg: Leg, id: string) {
    id == if |LegText(r, leg)| <= 64 then LegText(r, leg) else "pairs:" + digest(LegText(r, leg))
  }

  /** An order at the market, which has no price. */
  predicate AtMarket(r: PairRequest, o: LegOrder) {
    o.orderType == "market" && o.price == -1.0 && o.daytrade == r.daytrade && o.env == r.env
  }

  /** The order is leg A of the pair: ticker, lower-case side and quantity of A, and the leg's id. */
  predicate IsLegA(digest: string -> string, r: PairRequest, o: LegOrder) {
    && o.leg.LegA? && o.ticker == r.tickerA && o.quantity == r.quantityA && SameWord(r.sideA, o.side)
    && NoCapital(o.side) && IsLegId(digest, r, LegA, o.clOrdId) && AtMarket(r, o)
  }

  /** The order is leg B of the pair. */
  predicate IsLegB(digest: string -> string, r: PairRequest, o: LegOrder) {
    && o.leg.LegB? && o.ticker == r.tickerB && o.quantity == r.quantityB && SameWord(r.sideB, o.side)
    && NoCapital(o.side) && IsLegId(digest, r, LegB, o.clOrdId) && AtMarket(r, o)
  }

  lemma LegTextIs(r: PairRequest, leg: Leg)
    ensures LegText(r, leg) == RawPairId(r.pair, leg, r.action, r.at)
  {
    JoinedFive("pairs", r.pair, LegName(leg), r.action, IsoMinute(r.at));
    Flattened("pairs", r.pair, LegName(leg), r.action, IsoMinute(r.at));
    assert "pairs" + ":" == "pairs:";
  }

  lemma LegIdsAre(digest: string -> string, r: PairRequest)
    ensures IsLegId(digest, r, LegA, OrderOf(digest, r, LegA).clOrdId)
    ensures IsLegId(digest, r, LegB, OrderOf(digest, r, LegB).clOrdId)
  {
    LegsAre(digest, r);
  }

  lemma LegsAre(digest: string -> string, r: PairRequest)
    ensures IsLegA(digest, r, OrderOf(digest, r, LegA)) && IsLegB(digest, r, OrderOf(digest, r, LegB))
  {
    LegTextIs(r, LegA);
    LegTextIs(r, LegB);
    LowerIs(r.sideA, Lower(r.sideA));
    LowerIs(r.sideB, Lower(r.sideB));
  }

  // ------------------------------------------------------------------------------------------
  // The dispatch

  /** Both legs, with what the environment makes of each POST. */
  class Agent {
    var orders: seq<LegOrder>

    method PostLeg(o: LegOrder, fate: Post) returns (returned: bool)
      modifies this
      ensures orders == if fate.accepted then old(orders) + [o] else old(orders)
      ensures returned == fate.replied
    {
      if fate.accepted {
        orders := orders + [o];
      }
      return fate.replied;
    }

    /**
     * The agent ends with at most the two legs added, B only after A. The report is right about
     * them exactly if no POST that was made raised after its order was taken.
     */
    method DispatchPair(digest: string -> string, r: PairRequest, fateA: Post, fateB: Post) returns (result: PairResult)
      modifies this
      ensures orders == old(orders) + Taken(digest, r, fateA, fateB)
      ensures Adds(digest, r, old(orders), orders, fateA.accepted, fateA.replied && fateB.accepted)
      ensures IsLegId(digest, r, LegA, result.clA) && IsLegId(digest, r, LegB, result.clB)
      ensures result.ok <==> fateA.replied && fateB.replied
      ensures result.nakedLeg == if fateA.replied && !fateB.replied then Some(LegA) else None
      ensures Truthful(result, Taken(digest, r, fateA, fateB))
         <==> (fateA.accepted == fateA.replied) && (fateA.replied ==> fateB.accepted == fateB.replied)
    {
      var a, b := OrderOf(digest, r, LegA), OrderOf(digest, r, LegB);
      LegIdsAre(digest, r);
      TakenAdds(digest, r, fateA, fateB, orders);
      var returned := PostLeg(a, fateA);
      if !returned {
        result := PairResult(false, None, a.clOrdId, b.clOrdId);
      } else {
        returned := PostLeg(b, fateB);
        if !returned {
          result := PairResult(false, Some(LegA), a.clOrdId, b.clOrdId);
        } else {
          result := PairResult(true, None, a.clOrdId, b.clOrdId);
        }
      }
      ReportIs(digest, r, fateA, fateB, result);
    }
  }

  /** From `before` to `after` leg A was added if `takenA`, then leg B if `takenB`, and nothing else changed. */
  ghost predicate Adds(digest: string -> string, r: PairRequest, before: seq<LegOrder>, after: seq<LegOrder>,
                       takenA: bool, takenB: bool) {
    var n := |before|;
    && |after| == n + (if takenA then 1 else 0) + (if takenB then 1 else 0) && before == after[..n]
    && (takenA ==> IsLegA(digest, r, after[n]))
    && (takenB ==> IsLegB(digest, r, after[|after| - 1]))
  }

  /** The orders the agent takes: leg B is only posted once leg A's POST has returned. */
  function Taken(digest: string -> string, r: PairRequest, fateA: Post, fateB: Post): seq<LegOrder> {
    (if fateA.accepted then [OrderOf(digest, r, LegA)] else [])
    + (if fateA.replied && fateB.accepted then [OrderOf(digest, r, LegB)] else [])
  }

  ghost predicate HasLeg(orders: seq<LegOrder>, leg: Leg) { exists o :: o in orders && o.leg == leg }

  /** `ok` says both legs stand, a naked leg A that only A does, no naked leg that none does. */
  ghost predicate Truthful(result: PairResult, taken: seq<LegOrder>) {
    var a, b := HasLeg(taken, LegA), HasLeg(taken, LegB);
    && (result.ok <==> a && b)
    && (result.nakedLeg == Some(LegA) <==> a && !b)
    && (result.nakedLeg == Some(LegB) <==> b && !a)
    && (!result.ok && result.nakedLeg.None? <==> !a && !b)
  }

  lemma TakenLegs(digest: string -> string, r: PairRequest, fateA: Post, fateB: Post)
    ensures HasLeg(Taken(digest, r, fateA, fateB), LegA) <==> fateA.accepted
    ensures HasLeg(Taken(digest, r, fateA, fateB), LegB) <==> fateA.replied && fateB.accepted
    ensures forall o :: o in Taken(digest, r, fateA, fateB) ==> IsLegA(digest, r, o) || IsLegB(digest, r, o)
  {
    LegsAre(digest, r);
    var a, b, taken := OrderOf(digest, r, LegA), OrderOf(digest, r, LegB), Taken(digest, r, fateA, fateB);
    assert fateA.accepted ==> a in taken;
    assert fateA.replied && fateB.accepted ==> b in taken;
  }

  lemma ReportIs(digest: string -> string, r: PairRequest, fateA: Post, fateB: Post, result: PairResult)
    requires result.ok <==> fateA.replied && fateB.replied
    requires result.nakedLeg == if fateA.replied && !fateB.replied then Some(LegA) else None
    ensures Truthful(result, Taken(digest, r, fateA, fateB))
       <==> (fateA.accepted == fateA.replied) && (fateA.replied ==> fateB.accepted == fateB.replied)
  {
    TakenLegs(digest, r, fateA, fateB);
  }

  lemma TakenAdds(digest: string -> string, r: PairRequest, fateA: Post, fateB: Post, before: seq<LegOrder>)
    ensures Adds(digest, r, before, before + Taken(digest, r, fateA, fateB), fateA.accepted,
                 fateA.replied && fateB.accepted)
  {
    LegsAre(digest, r);
  }

  /** Leg B never stands alone, whatever the POSTs do. */
  lemma LegBNeverAlone(digest: string -> string, r: PairRequest, fateA: Post, fateB: Post)
    ensures HasLeg(Taken(digest, r, fateA, fateB), LegB) ==> HasLeg(Taken(digest, r, fateA, fateB), LegA)
  {
    TakenLegs(digest, r, fateA, fateB);
  }
}
