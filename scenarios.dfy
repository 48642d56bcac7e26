/**
 * Concrete runs of the service: a quote to 10 AVAX filled with 9.5 AVAX,
 * delivered fill first, pairs into one intent with slippage -0.5 and -5 %;
 * 18-digit amounts are read without rounding; and equal amounts spelled
 * differently ("100" and "100.0") still pair.
 */
module Scenarios {
  import opened Wrappers
  import opened Decimals
  import opened ActionGrammar
  import opened Parser
  import opened Intents
  import opened Correlation
  import opened Reports
  import opened Sorting

  /** The pieces of "<action> <fromAmount> USDC(arbitrum) -> <toAmount> AVAX(avax)". */
  function Captures(action: string, fromAmount: string, toAmount: string): seq<string> {
    [action, " ", fromAmount, " ", "USDC", "(", "arbitrum", ")", " ", "->", " ",
     toAmount, " ", "AVAX", "(", "avax", ")"]
  }

  lemma CapturesFit(action: string, fromAmount: string, toAmount: string)
    requires action in ActionWords
    requires fromAmount != [] && DigitsAndDots(fromAmount)
    requires toAmount != [] && DigitsAndDots(toAmount)
    ensures FitsAll(ActionPattern, Captures(action, fromAmount, toAmount))
  {
    assert AllIn(AmountChar, fromAmount) && AllIn(AmountChar, toAmount);
    assert AllIn(WordChar, "USDC") && AllIn(ChainChar, "arbitrum");
    assert AllIn(WordChar, "AVAX") && AllIn(ChainChar, "avax");
    assert AllIn(Space, " ");
  }

  lemma HundredDigits()
    ensures AllDigits("100") && DigitsValue("100") == 100
  {
    assert "100"[..2] == "10" && "10"[..1] == "1";
  }

  lemma Hundred()
    ensures DigitsAndDots("100") && ParseDecimal("100") == Some(100.0)
  {
    HundredDigits();
    ParseDecimalInteger("100");
  }

  lemma Ten()
    ensures DigitsAndDots("10") && ParseDecimal("10") == Some(10.0)
  {
    ParseDecimalInteger("10");
    assert "10"[..1] == "1";
  }

  lemma NineAndAHalf()
    ensures DigitsAndDots("9.5") && ParseDecimal("9.5") == Some(9.5)
  {
    ParseDecimalPoint("9", "5");
    assert "9" + "." + "5" == "9.5";
    assert ("9" + "5")[..1] == "9";
  }

  /** "100.0" denotes the same amount as "100". */
  lemma HundredPointZero()
    ensures DigitsAndDots("100.0") && ParseDecimal("100.0") == Some(100.0)
  {
    HundredDigits();
    ParseDecimalPoint("100", "0");
    DigitsAppend("100", "0");
    assert "100" + "." + "0" == "100.0";
  }

  /** "CreateIntent 100 USDC(arbitrum) -> 10 AVAX(avax)" */
  function QuoteLine(): string {
    Concat(Captures("CreateIntent", "100", "10"))
  }

  /** "IntentFilled 100 USDC(arbitrum) -> 9.5 AVAX(avax)" */
  function FillLine(): string {
    Concat(Captures("IntentFilled", "100", "9.5"))
  }

  /** A scenario line's message: the route USDC(arbitrum) -> AVAX(avax) with the given amounts. */
  function RouteMessage(kind: MessageType, fromAmount: real, toAmount: real, raw: string): ParsedMessage {
    ParsedMessage(kind, Some(fromAmount), Some("USDC"), Some("arbitrum"), Some(toAmount), Some("AVAX"), Some("avax"), raw)
  }

  function QuoteOf(raw: string): ParsedMessage {
    RouteMessage(Quote, 100.0, 10.0, raw)
  }

  function FillOf(raw: string): ParsedMessage {
    RouteMessage(Fill, 100.0, 9.5, raw)
  }

  /** Any scenario line whose two amounts are well formed parses to its route message. */
  lemma ParseRouteLine(action: string, kind: MessageType, fromText: string, toText: string, fromAmount: real, toAmount: real)
    requires (action == "CreateIntent" && kind == Quote) || (action == "IntentFilled" && kind == Fill)
    requires fromText != [] && DigitsAndDots(fromText) && ParseDecimal(fromText) == Some(fromAmount)
    requires toText != [] && DigitsAndDots(toText) && ParseDecimal(toText) == Some(toAmount)
    ensures var line := Concat(Captures(action, fromText, toText));
      ParseActionDetail(line) == Ok(RouteMessage(kind, fromAmount, toAmount, line))
  {
    var caps := Captures(action, fromText, toText);
    assert "CreateIntent"[0] != "IntentFilled"[0];
    assert action in ActionWords;
    CapturesFit(action, fromText, toText);
    assert caps[0] == action && caps[2] == fromText && caps[11] == toText;
    ParseWellFormedLine(caps, fromAmount, toAmount);
  }

  lemma ParseQuoteLine()
    ensures ParseActionDetail(QuoteLine()) == Ok(QuoteOf(QuoteLine()))
  {
    Hundred();
    Ten();
    ParseRouteLine("CreateIntent", Quote, "100", "10", 100.0, 10.0);
  }

  lemma ParseFillLine()
    ensures ParseActionDetail(FillLine()) == Ok(FillOf(FillLine()))
  {
    Hundred();
    NineAndAHalf();
    ParseRouteLine("IntentFilled", Fill, "100", "9.5", 100.0, 9.5);
  }

  /** The intent the two lines make: filled, 0.5 AVAX short, that is -5 %. */
  function PairedFrom(qline: string, fline: string): PairedIntent {
    PairedIntent(1, Some(Leg(QuoteOf(qline), 1000, 1)), Some(Leg(FillOf(fline), 1010, 2)),
                 Filled, Some(Slippage(-0.5, -5.0)))
  }

  /**
   * A quote line (id 1, at 1000) and a fill line (id 2, at 1010) that parse
   * as above, delivered fill first, make one filled intent with slippage
   * -0.5 and -5 %.
   */
  lemma PairedRun(qline: string, fline: string)
    requires ParseActionDetail(qline) == Ok(QuoteOf(qline))
    requires ParseActionDetail(fline) == Ok(FillOf(fline))
    ensures var o := ProcessBatch(Empty, [MessageDetail(2, 1010, fline), MessageDetail(1, 1000, qline)]);
      && !o.raised
      && o.index.intents == map[1 := PairedFrom(qline, fline)]
      && o.index.order == [1]
  {
    var mq, mf := MessageDetail(1, 1000, qline), MessageDetail(2, 1010, fline);
    SortFillFirst(mq, mf);
    IngestParsed(Empty, mq, QuoteOf(qline));
    var st1 := Ingest(Empty, mq).index;
    IngestParsed(st1, mf, FillOf(fline));
    RunTwo(Empty, mq, mf);
    PairSlippage();
    EmptyInv();
    OppositeLegsPair(Empty, mq, QuoteOf(qline), mf, FillOf(fline));
  }

  /** Delivered with the later id first, the batch is processed in id order. */
  lemma SortFillFirst(first: MessageDetail, second: MessageDetail)
    requires first.id < second.id
    ensures SortBy([second, first], IdOf) == [first, second]
  {
    assert [second, first][1..] == [first];
    assert [first][1..] == [];
  }

  /** A batch of two whose first message does not raise. */
  lemma RunTwo(st: Index, a: MessageDetail, b: MessageDetail)
    requires !Ingest(st, a).raised
    ensures IngestAll(st, [a, b]) == Ingest(Ingest(st, a).index, b)
  {
    var o1 := Ingest(st, a);
    assert [a, b][1..] == [b];
    assert IngestAll(st, [a, b]) == IngestAll(o1.index, [b]);
    var o2 := Ingest(o1.index, b);
    assert [b][1..] == [];
    assert IngestAll(o1.index, [b]) == if o2.raised then o2 else IngestAll(o2.index, []);
  }

  lemma PairSlippage()
    ensures SlippageOf(10.0, 9.5) == Slippage(-0.5, -5.0)
  {
  }

  /** The scenario on the two concrete log lines. */
  lemma EndToEnd()
    ensures var o := ProcessBatch(Empty, [MessageDetail(2, 1010, FillLine()), MessageDetail(1, 1000, QuoteLine())]);
      && !o.raised
      && o.index.intents == map[1 := PairedFrom(QuoteLine(), FillLine())]
      && o.index.order == [1]
  {
    ParseQuoteLine();
    ParseFillLine();
    PairedRun(QuoteLine(), FillLine());
  }

  /**
   * Listing and statistics with one stored filled intent: the list is that
   * intent, and its percentage is the count-1 mean, maximum and minimum.
   */
  lemma SingleFilledReports(st: Index, i: PairedIntent, abs: real, pct: real)
    requires st.intents == map[i.intentId := i] && st.order == [i.intentId]
    requires i.status == Filled && i.slippage == Some(Slippage(abs, pct))
    ensures ListIntents(st) == [i]
    ensures ServiceStats(st) == Some(Stats(1, pct, pct, pct))
  {
    assert Stored(st.intents, st.order) == [i];
    assert FilledPcts([i]) == [pct];
  }

  lemma EndToEndReports(st: Index)
    requires st.intents == map[1 := PairedFrom(QuoteLine(), FillLine())] && st.order == [1]
    ensures ListIntents(st) == [PairedFrom(QuoteLine(), FillLine())]
    ensures ServiceStats(st) == Some(Stats(1, -5.0, -5.0, -5.0))
  {
    SingleFilledReports(st, PairedFrom(QuoteLine(), FillLine()), -0.5, -5.0);
  }

  /** A fill that delivers more than quoted gets the exact difference, with no rounding. */
  lemma DecimalExactness()
    ensures var s := SlippageOf(5.061095891887000125, 5.163011091280152576);
      && s.abs == 0.101915199393152451
      && s.pct * 5.061095891887000125 == 0.101915199393152451 * 100.0
  {
  }

  /** "IntentFilled 100.0 USDC(arbitrum) -> 9.5 AVAX(avax)" */
  function SpelledFillLine(): string {
    Concat(Captures("IntentFilled", "100.0", "9.5"))
  }

  lemma ParseSpelledFillLine()
    ensures ParseActionDetail(SpelledFillLine()) == Ok(FillOf(SpelledFillLine()))
  {
    HundredPointZero();
    NineAndAHalf();
    ParseRouteLine("IntentFilled", Fill, "100.0", "9.5", 100.0, 9.5);
  }

  /** A fill whose amount is spelled "100.0" still completes the quote of "100". */
  lemma SpellingIgnored()
    ensures var o := ProcessBatch(Empty, [MessageDetail(2, 1010, SpelledFillLine()), MessageDetail(1, 1000, QuoteLine())]);
      && !o.raised
      && o.index.intents == map[1 := PairedFrom(QuoteLine(), SpelledFillLine())]
  {
    ParseQuoteLine();
    ParseSpelledFillLine();
    PairedRun(QuoteLine(), SpelledFillLine());
  }
}
