/**
 * The records of lib/sodax/pairing.ts: messages as delivered, the legs of an
 * intent, the intent itself (`PairedIntent`), the status and slippage
 * recomputation (`updateStatusAndSlippage`) and the match key
 * (`getLookupKey`).
 */
module Intents {
  import opened Wrappers
  import opened Parser

  type MessageId = int

  /**
   * Intents are named after the message that created them; message ids are
   * unique among processed messages, so a fresh message id is a fresh intent id.
   */
  type IntentId = int

  /** A message from the indexing service, restricted to the fields the pairing reads. */
  datatype MessageDetail = MessageDetail(id: MessageId, createdAt: int, actionDetail: string)

  /** A parsed message together with the time and id of the message it came from. */
  datatype Leg = Leg(msg: ParsedMessage, timestamp: int, id: MessageId)

  datatype Status = Pending | Filled | OrphanFill

  datatype Slippage = Slippage(abs: real, pct: real)

  datatype PairedIntent = PairedIntent(
    intentId: IntentId,
    quote: Option<Leg>,
    fill: Option<Leg>,
    status: Status,
    slippage: Option<Slippage>)

  /**
   * What the fill delivered against what the quote promised: the difference,
   * and that difference as a percentage of the quote (0 when the quote is 0).
   */
  function SlippageOf(quoteAmt: real, fillAmt: real): (s: Slippage)
    ensures fillAmt == quoteAmt + s.abs
    ensures quoteAmt == 0.0 ==> s.pct == 0.0
    ensures quoteAmt != 0.0 ==> s.pct * quoteAmt == s.abs * 100.0
  {
    var absDiff := fillAmt - quoteAmt;
    var pctDiff := if quoteAmt == 0.0 then 0.0 else Percent(absDiff, quoteAmt);
    Slippage(absDiff, pctDiff)
  }

  /** `part / whole * 100`, exactly. */
  function Percent(part: real, whole: real): (r: real)
    requires whole != 0.0
    ensures r * whole == part * 100.0
  {
    part / whole * 100.0
  }

  predicate LegOk(leg: Leg, kind: MessageType) {
    leg.msg.kind == kind && Complete(leg.msg)
  }

  /** The amount the leg delivered (its `toAmount`). */
  function Delivered(leg: Leg): real
    requires Complete(leg.msg)
  {
    leg.msg.toAmount.value
  }

  /**
   * The invariant of one intent: the status names the legs present, each leg
   * has the kind of its slot, and the slippage is there exactly when the
   * intent is filled, computed from the two legs' delivered amounts.
   */
  ghost predicate Consistent(i: PairedIntent) {
    && (i.quote.Some? ==> LegOk(i.quote.value, Quote))
    && (i.fill.Some? ==> LegOk(i.fill.value, Fill))
    && (i.status == Filled <==> i.quote.Some? && i.fill.Some?)
    && (i.status == OrphanFill <==> i.quote.None? && i.fill.Some?)
    && (i.status == Pending <==> i.quote.Some? && i.fill.None?)
    && (i.slippage.Some? <==> i.status == Filled)
    && (i.status == Filled ==>
          i.slippage == Some(SlippageOf(Delivered(i.quote.value), Delivered(i.fill.value))))
  }

  /** `updateStatusAndSlippage`: the status and slippage an intent gets from its legs. */
  function Recomputed(i: PairedIntent): (r: PairedIntent)
    ensures r == i.(status := r.status, slippage := r.slippage)
    ensures i.quote.Some? && i.fill.Some? ==> r.status == Filled
    ensures i.quote.None? && i.fill.Some? ==> r.status == OrphanFill
    ensures i.quote.Some? && i.fill.None? ==> r.status == Pending
    ensures i.quote.None? && i.fill.None? ==> r == i
    ensures r.slippage != i.slippage ==>
      && i.quote.Some? && i.fill.Some?
      && i.quote.value.msg.toAmount.Some? && i.fill.value.msg.toAmount.Some?
      && r.slippage == Some(SlippageOf(i.quote.value.msg.toAmount.value, i.fill.value.msg.toAmount.value))
  {
    if i.quote.Some? && i.fill.Some? then
      var q, f := i.quote.value.msg.toAmount, i.fill.value.msg.toAmount;
      var s := if q.Some? && f.Some? then Some(SlippageOf(q.value, f.value)) else i.slippage;
      i.(status := Filled, slippage := s)
    else if i.fill.Some? && i.quote.None? then
      i.(status := OrphanFill)
    else if i.quote.Some? && i.fill.None? then
      i.(status := Pending)
    else
      i
  }

  /**
   * Recomputing an intent that holds at least one well-formed leg and no
   * slippage yet makes it consistent, and changes nothing but status and slippage.
   */
  lemma RecomputedConsistent(i: PairedIntent)
    requires i.quote.Some? || i.fill.Some?
    requires i.quote.Some? ==> LegOk(i.quote.value, Quote)
    requires i.fill.Some? ==> LegOk(i.fill.value, Fill)
    requires i.slippage.None?
    ensures Consistent(Recomputed(i))
    ensures Recomputed(i).intentId == i.intentId
    ensures Recomputed(i).quote == i.quote && Recomputed(i).fill == i.fill
  {
  }

  /** The correlation key: from-side amount and route, and the destination route. */
  datatype MatchKey = MatchKey(
    fromAmount: real,
    fromToken: string,
    fromChain: string,
    toToken: Option<string>,
    toChain: Option<string>)

  /**
   * `getLookupKey`: no key without a from-amount, a from-token and a
   * from-chain (empty strings count as missing). The amount enters the key by
   * value, because `Decimal.toString()` spells equal values alike.
   */
  function LookupKey(p: ParsedMessage): (k: Option<MatchKey>)
    ensures Complete(p) ==> k.Some?
    ensures k.Some? ==> p.fromAmount == Some(k.value.fromAmount)
  {
    if p.fromAmount.None? || p.fromToken.None? || p.fromToken.value == []
       || p.fromChain.None? || p.fromChain.value == [] then
      None
    else
      Some(MatchKey(p.fromAmount.value, p.fromToken.value, p.fromChain.value, p.toToken, p.toChain))
  }

  /**
   * Two complete messages share a key exactly when they agree on the
   * from-amount, both tokens and both chains; the delivered amount, the kind
   * and the raw text play no part.
   */
  lemma SameKeyIffSameRoute(p1: ParsedMessage, p2: ParsedMessage)
    requires Complete(p1) && Complete(p2)
    ensures LookupKey(p1) == LookupKey(p2) <==>
      && p1.fromAmount == p2.fromAmount
      && p1.fromToken == p2.fromToken && p1.fromChain == p2.fromChain
      && p1.toToken == p2.toToken && p1.toChain == p2.toChain
  {
  }

  /** `${value}` of an optional string in a template literal. */
  function TemplateText(o: Option<string>): string {
    if o.Some? then o.value else "undefined"
  }

  /**
   * The key exactly as lib/sodax/pairing.ts:35 builds it: the canonical amount
   * text followed by the four route fields, all joined with '_'. The amount
   * text holds no '_', so it is represented by the amount's value.
   */
  function WrittenLookupKey(p: ParsedMessage): (r: Option<(real, string)>)
    ensures r.Some? <==> LookupKey(p).Some?
    ensures r.Some? ==> r.value.0 == LookupKey(p).value.fromAmount
  {
    if p.fromAmount.None? || p.fromToken.None? || p.fromToken.value == []
       || p.fromChain.None? || p.fromChain.value == [] then
      None
    else
      Some((p.fromAmount.value,
            p.fromToken.value + "_" + p.fromChain.value + "_" + TemplateText(p.toToken) + "_" + TemplateText(p.toChain)))
  }

  /**
   * Tokens (`\w+`) and chains (`[\w.]+`) may themselves contain '_', so the
   * joined key confuses different routes: a quote of token "A_B" on chain "c"
   * and a fill of token "A" on chain "B_c" get the same written key, though
   * their routes, and their `LookupKey`s, differ.
   */
  lemma WrittenKeyCollision()
    ensures
      var quote := ParsedMessage(Quote, Some(1.0), Some("A_B"), Some("c"), Some(2.0), Some("X"), Some("y"),
                                 "CreateIntent 1 A_B(c) -> 2 X(y)");
      var fill := ParsedMessage(Fill, Some(1.0), Some("A"), Some("B_c"), Some(2.0), Some("X"), Some("y"),
                                "IntentFilled 1 A(B_c) -> 2 X(y)");
      && WrittenLookupKey(quote) == WrittenLookupKey(fill)
      && LookupKey(quote) != LookupKey(fill)
  {
    assert "A_B" + "_" + "c" == "A" + "_" + "B_c";
  }

  /**
   * The written key never separates what the field-by-field key joins:
   * messages with one `LookupKey` get one written key. (The converse fails,
   * as `WrittenKeyCollision` shows.)
   */
  lemma WrittenKeyCoarser(p1: ParsedMessage, p2: ParsedMessage)
    requires LookupKey(p1).Some? && LookupKey(p1) == LookupKey(p2)
    ensures WrittenLookupKey(p1) == WrittenLookupKey(p2)
  {
  }
}
