/**
 * The action-line grammar of lib/sodax/parser.ts:19 as a pattern of pieces
 * matched greedily from the start of the text. Each piece captures the text it
 * consumed; whatever follows the last piece is left over (the pattern is
 * anchored at the start only).
 *
 * `MatchFrom` is the deterministic scanner. `FitsAll` + `Concat` say
 * declaratively what a match is: a list of captures, each fitting its piece,
 * that spells a prefix of the text. The scanner is sound for every pattern and
 * complete for patterns where no run can swallow the start of what follows it
 * (`Deterministic`), which the action pattern is; a backtracking regex engine
 * therefore finds exactly the captures the scanner finds.
 */
module ActionGrammar {
  import opened Wrappers
  import Decimals

  datatype CharClass = Space | AmountChar | WordChar | ChainChar

  /** JavaScript's `\s`: the ECMAScript white space and line terminator characters. */
  predicate IsSpace(c: char) {
    || c == '\t' || c == '\n' || c == '\U{000B}' || c == '\U{000C}' || c == '\r' || c == ' '
    || c == '\U{00A0}' || c == '\U{1680}' || ('\U{2000}' <= c <= '\U{200A}')
    || c == '\U{2028}' || c == '\U{2029}' || c == '\U{202F}' || c == '\U{205F}'
    || c == '\U{3000}' || c == '\U{FEFF}'
  }

  /** JavaScript's `\w`: `[A-Za-z0-9_]`. */
  predicate IsWordChar(c: char) {
    ('a' <= c <= 'z') || ('A' <= c <= 'Z') || Decimals.IsDigit(c) || c == '_'
  }

  /** `\s`, `[\d.]`, `\w` and `[\w.]`. */
  predicate InClass(cls: CharClass, c: char) {
    match cls
    case Space => IsSpace(c)
    case AmountChar => Decimals.IsDigit(c) || c == '.'
    case WordChar => IsWordChar(c)
    case ChainChar => IsWordChar(c) || c == '.'
  }

  predicate AllIn(cls: CharClass, s: string) {
    forall i :: 0 <= i < |s| ==> InClass(cls, s[i])
  }

  /** One element of a pattern: an alternation of words, `class+`, or a literal. */
  datatype Piece = Choice(words: seq<string>) | Run(cls: CharClass) | Lit(text: string)

  predicate Fits(p: Piece, s: string) {
    match p
    case Choice(ws) => s in ws
    case Run(cls) => s != [] && AllIn(cls, s)
    case Lit(t) => s == t
  }

  predicate FitsAll(pat: seq<Piece>, caps: seq<string>) {
    |caps| == |pat| && forall i :: 0 <= i < |pat| ==> Fits(pat[i], caps[i])
  }

  function Concat(caps: seq<string>): string {
    if caps == [] then [] else caps[0] + Concat(caps[1..])
  }

  /** The greedy `cls*`: the longest prefix in the class, and what follows it. */
  function Longest(cls: CharClass, s: string): (r: (string, string))
    ensures r.0 + r.1 == s && AllIn(cls, r.0)
    ensures r.1 == [] || !InClass(cls, r.1[0])
  {
    if s != [] && InClass(cls, s[0]) then
      var (a, b) := Longest(cls, s[1..]);
      assert s == [s[0]] + (a + b);
      ([s[0]] + a, b)
    else
      ([], s)
  }

  /** Alternation: the first word, left to right, that the text starts with. */
  function FirstWord(ws: seq<string>, s: string): (r: Option<(string, string)>)
    ensures r.Some? ==> r.value.0 in ws && r.value.0 + r.value.1 == s
  {
    if ws == [] then None
    else if ws[0] <= s then
      assert s == ws[0] + s[|ws[0]|..];
      Some((ws[0], s[|ws[0]|..]))
    else FirstWord(ws[1..], s)
  }

  /** Matches one piece at the start of the text. */
  function Step(p: Piece, s: string): (r: Option<(string, string)>)
    ensures r.Some? ==> Fits(p, r.value.0) && r.value.0 + r.value.1 == s
  {
    match p
    case Choice(ws) => FirstWord(ws, s)
    case Run(cls) =>
      var (a, b) := Longest(cls, s);
      if a == [] then None else Some((a, b))
    case Lit(t) =>
      if t <= s then
        assert s == t + s[|t|..];
        Some((t, s[|t|..]))
      else None
  }

  /** The scanner: the captures of each piece in turn, and the text left after the last. */
  function MatchFrom(pat: seq<Piece>, s: string): (r: Option<(seq<string>, string)>)
    ensures r.Some? ==> FitsAll(pat, r.value.0) && Concat(r.value.0) + r.value.1 == s
  {
    if pat == [] then Some(([], s))
    else
      match Step(pat[0], s)
      case None => None
      case Some((cap, s')) =>
        match MatchFrom(pat[1..], s')
        case None => None
        case Some((caps, rest)) =>
          ConsCapture(pat, cap, caps, s', rest);
          Some(([cap] + caps, rest))
  }

  /** A capture for the first piece in front of captures for the others. */
  lemma ConsCapture(pat: seq<Piece>, cap: string, caps: seq<string>, s': string, rest: string)
    requires pat != [] && Fits(pat[0], cap)
    requires FitsAll(pat[1..], caps) && Concat(caps) + rest == s'
    ensures FitsAll(pat, [cap] + caps) && Concat([cap] + caps) + rest == cap + s'
  {
    var all := [cap] + caps;
    assert all[1..] == caps;
    forall i | 0 <= i < |pat| ensures Fits(pat[i], all[i]) {
      if i > 0 { assert pat[i] == pat[1..][i - 1] && all[i] == caps[i - 1]; }
    }
  }

  /** No text fitting `next` starts with a character of `cls`. */
  predicate StopsRun(cls: CharClass, next: Piece) {
    match next
    case Choice(ws) => forall w :: w in ws ==> w != [] && !InClass(cls, w[0])
    case Run(c) => forall ch :: InClass(c, ch) ==> !InClass(cls, ch)
    case Lit(t) => t != [] && !InClass(cls, t[0])
  }

  predicate PrefixFree(ws: seq<string>) {
    forall i, j :: 0 <= i < |ws| && 0 <= j < |ws| && i != j ==> !(ws[i] <= ws[j])
  }

  /**
   * Greedy matching never needs to backtrack: alternatives are prefix-free and
   * every run is followed by a piece it cannot extend into.
   */
  predicate Deterministic(pat: seq<Piece>) {
    && (forall i :: 0 <= i < |pat| && pat[i].Choice? ==> PrefixFree(pat[i].words))
    && (forall i :: 0 <= i < |pat| && pat[i].Run? ==> i + 1 < |pat| && StopsRun(pat[i].cls, pat[i + 1]))
  }

  lemma {:induction false} LongestComplete(cls: CharClass, a: string, b: string)
    requires AllIn(cls, a)
    requires b == [] || !InClass(cls, b[0])
    ensures Longest(cls, a + b) == (a, b)
  {
    if a != [] {
      var s := a + b;
      assert s[0] == a[0] && InClass(cls, s[0]);
      assert s[1..] == a[1..] + b;
      LongestComplete(cls, a[1..], b);
      assert Longest(cls, s) == ([s[0]] + a[1..], b);
      assert [a[0]] + a[1..] == a;
    } else {
      assert a + b == b;
    }
  }

  lemma {:induction false} FirstWordComplete(ws: seq<string>, w: string, t: string)
    requires PrefixFree(ws) && w in ws
    ensures FirstWord(ws, w + t) == Some((w, t))
  {
    if ws[0] == w {
      assert (w + t)[|w|..] == t;
    } else {
      var j :| 0 < j < |ws| && ws[j] == w;
      assert w in ws[1..] by { assert ws[1..][j - 1] == w; }
      assert PrefixFree(ws[1..]) by {
        forall i, k | 0 <= i < |ws| - 1 && 0 <= k < |ws| - 1 && i != k
          ensures !(ws[1..][i] <= ws[1..][k])
        {
          assert ws[1..][i] == ws[i + 1] && ws[1..][k] == ws[k + 1];
        }
      }
      FirstWordComplete(ws[1..], w, t);
    }
  }

  lemma StartStops(cls: CharClass, next: Piece, s: string, t: string)
    requires StopsRun(cls, next) && Fits(next, s)
    ensures s + t != [] && !InClass(cls, (s + t)[0])
  {
    match next
    case Choice(ws) =>
      assert s in ws;
    case Run(c) =>
      assert InClass(c, s[0]);
    case Lit(lit) =>
  }

  lemma DeterministicTail(pat: seq<Piece>)
    requires pat != [] && Deterministic(pat)
    ensures Deterministic(pat[1..])
  {
    forall i | 0 <= i < |pat| - 1 && pat[1..][i].Run?
      ensures i + 1 < |pat[1..]| && StopsRun(pat[1..][i].cls, pat[1..][i + 1])
    {
      assert pat[1..][i] == pat[i + 1];
    }
    forall i | 0 <= i < |pat| - 1 && pat[1..][i].Choice?
      ensures PrefixFree(pat[1..][i].words)
    {
      assert pat[1..][i] == pat[i + 1];
    }
  }

  /** One step of the scanner consumes exactly the capture that fits. */
  lemma StepComplete(pat: seq<Piece>, caps: seq<string>, rest: string)
    requires pat != [] && Deterministic(pat) && FitsAll(pat, caps)
    ensures Step(pat[0], caps[0] + (Concat(caps[1..]) + rest)) == Some((caps[0], Concat(caps[1..]) + rest))
  {
    var tail := Concat(caps[1..]) + rest;
    assert Fits(pat[0], caps[0]);
    match pat[0]
    case Choice(ws) =>
      FirstWordComplete(ws, caps[0], tail);
    case Run(cls) =>
      assert StopsRun(cls, pat[1]) && Fits(pat[1], caps[1]);
      assert tail == caps[1] + (Concat(caps[2..]) + rest) by {
        assert caps[1..][1..] == caps[2..];
      }
      StartStops(cls, pat[1], caps[1], Concat(caps[2..]) + rest);
      LongestComplete(cls, caps[0], tail);
    case Lit(t) =>
      assert (caps[0] + tail)[|t|..] == tail;
  }

  /** Completeness: for a deterministic pattern, every decomposition is what the scanner finds. */
  lemma {:induction false} MatchComplete(pat: seq<Piece>, caps: seq<string>, rest: string)
    requires Deterministic(pat) && FitsAll(pat, caps)
    ensures MatchFrom(pat, Concat(caps) + rest) == Some((caps, rest))
  {
    if pat != [] {
      var s := Concat(caps) + rest;
      var tail := Concat(caps[1..]) + rest;
      assert s == caps[0] + tail;
      StepComplete(pat, caps, rest);
      assert Step(pat[0], s) == Some((caps[0], tail));
      DeterministicTail(pat);
      assert FitsAll(pat[1..], caps[1..]) by {
        forall i | 0 <= i < |pat| - 1 ensures Fits(pat[1..][i], caps[1..][i]) {
          assert pat[1..][i] == pat[i + 1] && caps[1..][i] == caps[i + 1];
        }
      }
      MatchComplete(pat[1..], caps[1..], rest);
      assert MatchFrom(pat[1..], tail) == Some((caps[1..], rest));
      assert [caps[0]] + caps[1..] == caps;
    } else {
      assert Concat(caps) + rest == rest;
    }
  }

  /** For a deterministic pattern a text has at most one decomposition. */
  lemma MatchUnique(pat: seq<Piece>, caps1: seq<string>, rest1: string, caps2: seq<string>, rest2: string)
    requires Deterministic(pat) && FitsAll(pat, caps1) && FitsAll(pat, caps2)
    requires Concat(caps1) + rest1 == Concat(caps2) + rest2
    ensures caps1 == caps2 && rest1 == rest2
  {
    MatchComplete(pat, caps1, rest1);
    MatchComplete(pat, caps2, rest2);
  }

  const ActionWords: seq<string> := ["IntentSwap", "CreateIntent", "IntentFilled"]

  /**
   * `(IntentSwap|CreateIntent|IntentFilled)\s+([\d.]+)\s+(\w+)\(([\w.]+)\)\s+->\s+([\d.]+)\s+(\w+)\(([\w.]+)\)`
   * The seven capture groups are the captures at positions 0, 2, 4, 6, 11, 13 and 15.
   */
  const ActionPattern: seq<Piece> := [
    Choice(ActionWords), Run(Space), Run(AmountChar), Run(Space), Run(WordChar),
    Lit("("), Run(ChainChar), Lit(")"), Run(Space), Lit("->"), Run(Space),
    Run(AmountChar), Run(Space), Run(WordChar), Lit("("), Run(ChainChar), Lit(")")]

  lemma ActionPatternDeterministic()
    ensures Deterministic(ActionPattern)
  {
    ActionWordsPrefixFree();
    OnlyFirstIsChoice();
    RunsStop();
    assert ActionPattern[0].words == ActionWords;
  }

  lemma OnlyFirstIsChoice()
    ensures forall i :: 0 <= i < |ActionPattern| && ActionPattern[i].Choice? ==> i == 0
  {
  }

  /** Each run of the action pattern is followed by a piece that cannot start inside it. */
  lemma RunsStop()
    ensures forall i :: 0 <= i < |ActionPattern| && ActionPattern[i].Run? ==>
      i + 1 < |ActionPattern| && StopsRun(ActionPattern[i].cls, ActionPattern[i + 1])
  {
    RunsStopBetween(0, 6);
    RunsStopBetween(6, 12);
    RunsStopBetween(12, 17);
  }

  lemma RunsStopBetween(lo: nat, hi: nat)
    requires (lo, hi) == (0, 6) || (lo, hi) == (6, 12) || (lo, hi) == (12, 17)
    ensures forall i :: lo <= i < hi && ActionPattern[i].Run? ==>
      i + 1 < |ActionPattern| && StopsRun(ActionPattern[i].cls, ActionPattern[i + 1])
  {
    var pat := ActionPattern;
    SpaceAndAmountDisjoint();
    SpaceAndWordDisjoint();
    forall i | lo <= i < hi && pat[i].Run? ensures i + 1 < |pat| && StopsRun(pat[i].cls, pat[i + 1]) {
      if i < 6 {
        assert i == 1 || i == 2 || i == 3 || i == 4;
      } else if i < 12 {
        assert i == 6 || i == 8 || i == 10 || i == 11;
      } else {
        assert i == 12 || i == 13 || i == 15;
      }
    }
  }

  lemma SpaceAndAmountDisjoint()
    ensures forall ch :: InClass(AmountChar, ch) ==> !InClass(Space, ch)
    ensures forall ch :: InClass(Space, ch) ==> !InClass(AmountChar, ch)
  {
  }

  lemma SpaceAndWordDisjoint()
    ensures forall ch :: InClass(WordChar, ch) ==> !InClass(Space, ch)
    ensures forall ch :: InClass(Space, ch) ==> !InClass(WordChar, ch)
  {
  }

  lemma ActionWordsPrefixFree()
    ensures PrefixFree(ActionWords)
  {
    var ws := ActionWords;
    assert ws[0][6] == 'S' && ws[2][6] == 'F' && ws[1][0] == 'C' && ws[0][0] == 'I' && ws[2][0] == 'I';
    forall i, j | 0 <= i < |ws| && 0 <= j < |ws| && i != j ensures !(ws[i] <= ws[j]) {
      assert ws[i][0] != ws[j][0] || ws[i][6] != ws[j][6];
    }
  }

  /** The text spells an action line with these captures, followed by `rest`. */
  ghost predicate Spells(detail: string, caps: seq<string>, rest: string) {
    FitsAll(ActionPattern, caps) && detail == Concat(caps) + rest
  }

  /** Whether the regex of parser.ts:19 matches the text. */
  ghost predicate IsActionLine(detail: string) {
    exists caps, rest :: Spells(detail, caps, rest)
  }

  /** The scanner finds a match exactly when the text is an action line, with the same captures. */
  lemma ScanCharacterised(detail: string)
    ensures MatchFrom(ActionPattern, detail).Some? <==> IsActionLine(detail)
    ensures MatchFrom(ActionPattern, detail).Some? ==>
      Spells(detail, MatchFrom(ActionPattern, detail).value.0, MatchFrom(ActionPattern, detail).value.1)
  {
    var r := MatchFrom(ActionPattern, detail);
    if r.Some? {
      assert Spells(detail, r.value.0, r.value.1);
    }
    if IsActionLine(detail) {
      var caps, rest :| Spells(detail, caps, rest);
      ActionPatternDeterministic();
      MatchComplete(ActionPattern, caps, rest);
    }
  }
}
