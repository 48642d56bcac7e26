/**
 * `parseActionDetail` (lib/sodax/parser.ts:14-41): recognises one action line,
 * classifies it as a quote or a fill and reads its two amounts as exact
 * decimals. Text that is not an action line becomes an `Unknown` message that
 * only carries the raw text. An action line whose amount text the decimal
 * constructor rejects (such as "1..2") raises an error instead.
 */
module Parser {
  import opened Wrappers
  import opened Decimals
  import opened ActionGrammar

  datatype MessageType = Quote | Fill | Unknown

  /** The `ParsedMessage` record; absent fields are `None`. */
  datatype ParsedMessage = ParsedMessage(
    kind: MessageType,
    fromAmount: Option<real>,
    fromToken: Option<string>,
    fromChain: Option<string>,
    toAmount: Option<real>,
    toToken: Option<string>,
    toChain: Option<string>,
    rawDetail: string)

  /** What `new Decimal(text)` throws on a malformed amount. */
  datatype ParseError = InvalidDecimal(text: string)

  /** Every amount, token and chain field is present, and tokens and chains are non-empty. */
  predicate Complete(p: ParsedMessage) {
    && p.fromAmount.Some? && p.fromToken.Some? && p.fromChain.Some?
    && p.toAmount.Some? && p.toToken.Some? && p.toChain.Some?
    && p.fromToken.value != [] && p.fromChain.value != []
    && p.toToken.value != [] && p.toChain.value != []
  }

  function UnknownMessage(detail: string): ParsedMessage {
    ParsedMessage(Unknown, None, None, None, None, None, None, detail)
  }

  function Classify(action: string): (r: MessageType)
    ensures r == Quote <==> action == "IntentSwap" || action == "CreateIntent"
    ensures r == Fill <==> action == "IntentFilled"
  {
    var isQuote := action == "IntentSwap" || action == "CreateIntent";
    var isFill := action == "IntentFilled";
    if isQuote then Quote else if isFill then Fill else Unknown
  }

  function ParseActionDetail(detail: string): (r: Result<ParsedMessage, ParseError>)
    ensures r.Ok? ==> r.value.rawDetail == detail
    ensures r.Ok? && r.value.kind == Unknown ==> r.value == UnknownMessage(detail)
    ensures r.Ok? && r.value.kind != Unknown ==> Complete(r.value)
  {
    match MatchFrom(ActionPattern, detail)
    case None => Ok(UnknownMessage(detail))
    case Some((caps, _)) =>
      assert Fits(ActionPattern[0], caps[0]) && Fits(ActionPattern[2], caps[2]) && Fits(ActionPattern[11], caps[11]);
      assert Fits(ActionPattern[4], caps[4]) && Fits(ActionPattern[6], caps[6]);
      assert Fits(ActionPattern[13], caps[13]) && Fits(ActionPattern[15], caps[15]);
      var fromAmount := ParseDecimal(caps[2]);
      if fromAmount.None? then Err(InvalidDecimal(caps[2]))
      else
        var toAmount := ParseDecimal(caps[11]);
        if toAmount.None? then Err(InvalidDecimal(caps[11]))
        else
          Ok(ParsedMessage(Classify(caps[0]), fromAmount, Some(caps[4]), Some(caps[6]),
                           toAmount, Some(caps[13]), Some(caps[15]), detail))
  }

  /**
   * Text that is not an action line is `unknown`, with the raw text and no
   * other field; an action line is never `unknown`.
   */
  lemma UnknownIffNotActionLine(detail: string)
    ensures ParseActionDetail(detail) == Ok(UnknownMessage(detail)) <==> !IsActionLine(detail)
    ensures IsActionLine(detail) ==> ParseActionDetail(detail).Err? || ParseActionDetail(detail).value.kind != Unknown
  {
    ScanCharacterised(detail);
    var m := MatchFrom(ActionPattern, detail);
    if m.Some? {
      var caps := m.value.0;
      assert caps[0] in ActionWords;
    }
  }

  /**
   * Parsing an action line built from its captures, followed by any text,
   * gives back the captures: `IntentSwap` and `CreateIntent` are quotes,
   * `IntentFilled` is a fill, the amounts are the exact values of their
   * digits, and a malformed amount raises an error naming it.
   */
  lemma ParseActionLine(caps: seq<string>, rest: string)
    requires FitsAll(ActionPattern, caps)
    ensures DigitsAndDots(caps[2]) && DigitsAndDots(caps[11])
    ensures ParseActionDetail(Concat(caps) + rest) ==
      if ParseDecimal(caps[2]).None? then Err(InvalidDecimal(caps[2]))
      else if ParseDecimal(caps[11]).None? then Err(InvalidDecimal(caps[11]))
      else Ok(ParsedMessage(
        if caps[0] == "IntentFilled" then Fill else Quote,
        ParseDecimal(caps[2]), Some(caps[4]), Some(caps[6]),
        ParseDecimal(caps[11]), Some(caps[13]), Some(caps[15]),
        Concat(caps) + rest))
  {
    assert Fits(ActionPattern[0], caps[0]) && Fits(ActionPattern[2], caps[2]) && Fits(ActionPattern[11], caps[11]);
    ActionPatternDeterministic();
    MatchComplete(ActionPattern, caps, rest);
    ClassifyAction(caps[0]);
  }

  /** The three action words: two name quotes, one names fills. */
  lemma ClassifyAction(w: string)
    requires w in ActionWords
    ensures Classify(w) == if w == "IntentFilled" then Fill else Quote
  {
  }

  /** The parse of a whole action line whose two amounts are well formed. */
  lemma ParseWellFormedLine(caps: seq<string>, fromAmount: real, toAmount: real)
    requires FitsAll(ActionPattern, caps)
    requires DigitsAndDots(caps[2]) && ParseDecimal(caps[2]) == Some(fromAmount)
    requires DigitsAndDots(caps[11]) && ParseDecimal(caps[11]) == Some(toAmount)
    ensures ParseActionDetail(Concat(caps)) == Ok(ParsedMessage(
      if caps[0] == "IntentFilled" then Fill else Quote,
      Some(fromAmount), Some(caps[4]), Some(caps[6]),
      Some(toAmount), Some(caps[13]), Some(caps[15]),
      Concat(caps)))
  {
    ParseActionLine(caps, "");
    assert Concat(caps) + "" == Concat(caps);
  }
}
