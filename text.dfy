/**
  The pieces of Rust's `str` API that the solvers rely on, over ASCII-or-Unicode
  `string`s: decimal digits, `u64::to_string`, `str::parse::<u64>`, `trim`,
  `split_once`, `split`, `split_whitespace` and `lines`.
*/
module Text {
  import opened Wrappers

  const U64_MAX: nat := 0xFFFF_FFFF_FFFF_FFFF

  predicate IsDigit(c: char) { '0' <= c <= '9' }

  predicate IsDigits(s: string) { forall i :: 0 <= i < |s| ==> IsDigit(s[i]) }

  function DigitValue(c: char): (d: nat)
    requires IsDigit(c)
    ensures d < 10
  {
    c as int - '0' as int
  }

  function DigitChar(d: nat): (c: char)
    requires d < 10
    ensures IsDigit(c) && DigitValue(c) == d
  {
    ('0' as int + d) as char
  }

  function Pow10(n: nat): (p: nat)
    ensures p >= 1
  {
    if n == 0 then 1 else 10 * Pow10(n - 1)
  }

  /** The value of a string of decimal digits, most significant first. */
  function FromDecimal(s: string): nat
    requires IsDigits(s)
  {
    if s == [] then 0 else FromDecimal(s[..|s| - 1]) * 10 + DigitValue(s[|s| - 1])
  }

  /** `n.to_string()`: the shortest decimal spelling of `n`. */
  function ToDecimal(n: nat): (s: string)
    ensures |s| >= 1 && IsDigits(s)
    ensures s[0] == '0' ==> n == 0
    ensures n < Pow10(|s|)
  {
    if n < 10 then [DigitChar(n)] else ToDecimal(n / 10) + [DigitChar(n % 10)]
  }

  /** A decimal string without a superfluous leading zero. */
  predicate IsCanonicalDecimal(s: string) {
    |s| >= 1 && IsDigits(s) && (s[0] == '0' ==> |s| == 1)
  }

  lemma {:induction false} FromToDecimal(n: nat)
    ensures FromDecimal(ToDecimal(n)) == n
  {
    if n >= 10 {
      var s := ToDecimal(n);
      FromToDecimal(n / 10);
      assert s[..|s| - 1] == ToDecimal(n / 10);
    }
  }

  lemma {:induction false} FromDecimalPositive(s: string)
    requires IsDigits(s) && |s| >= 1 && s[0] != '0'
    ensures FromDecimal(s) >= Pow10(|s| - 1)
  {
    if |s| > 1 {
      FromDecimalPositive(s[..|s| - 1]);
    }
  }

  lemma {:induction false} ToFromDecimal(s: string)
    requires IsCanonicalDecimal(s)
    ensures ToDecimal(FromDecimal(s)) == s
  {
    if |s| > 1 {
      var init := s[..|s| - 1];
      FromDecimalPositive(init);
      ToFromDecimal(init);
      LastDigit(FromDecimal(init), DigitValue(s[|s| - 1]));
      InitLast(s);
    }
  }

  /** Appending a digit `d` to `x` and taking it off again. */
  lemma LastDigit(x: nat, d: nat)
    requires d < 10
    ensures (x * 10 + d) / 10 == x && (x * 10 + d) % 10 == d
  {
  }

  /** A non-empty sequence is its prefix followed by its last element. */
  lemma InitLast<T>(s: seq<T>)
    requires s != []
    ensures s[..|s| - 1] + [s[|s| - 1]] == s
  {
  }

  /** Digits appended to digits are digits. */
  lemma DigitsAppend(a: string, b: string)
    requires IsDigits(a) && IsDigits(b)
    ensures IsDigits(a + b)
  {
    forall i | 0 <= i < |a + b| ensures IsDigit((a + b)[i]) {
      if i < |a| { assert (a + b)[i] == a[i]; } else { assert (a + b)[i] == b[i - |a|]; }
    }
  }

  /** The last digit and the rest of `a + b`, for non-empty `b`. */
  lemma AppendInitLast(a: string, b: string)
    requires b != []
    ensures (a + b)[..|a + b| - 1] == a + b[..|b| - 1]
    ensures (a + b)[|a + b| - 1] == b[|b| - 1]
  {
  }

  lemma {:induction false} FromDecimalAppend(a: string, b: string)
    requires IsDigits(a) && IsDigits(b)
    ensures IsDigits(a + b)
    ensures FromDecimal(a + b) == FromDecimal(a) * Pow10(|b|) + FromDecimal(b)
  {
    DigitsAppend(a, b);
    if b != [] {
      var b' := b[..|b| - 1];
      AppendInitLast(a, b);
      FromDecimalAppend(a, b');
      var x, p, y, d := FromDecimal(a), Pow10(|b'|), FromDecimal(b'), DigitValue(b[|b| - 1]);
      assert FromDecimal(a + b) == FromDecimal(a + b') * 10 + d;
      assert FromDecimal(b) == y * 10 + d;
      assert Pow10(|b|) == p * 10;
      ShiftDigit(x, p, y, d);
    } else {
      assert a + b == a;
    }
  }

  lemma ShiftDigit(x: int, p: int, y: int, d: int)
    ensures (x * p + y) * 10 + d == x * (p * 10) + (y * 10 + d)
  {
  }

  /**
    `s.parse::<u64>()` (Rust's `u64::from_str`): an optional `+`, then at least
    one decimal digit, and a value that fits in 64 bits; anything else is an error.
  */
  function ParseU64(s: string): (r: Option<nat>)
    ensures r.Some? ==> r.value <= U64_MAX
    ensures r.Some? ==> |s| >= 1 && (IsDigit(s[0]) || s[0] == '+')
  {
    if s == [] then None
    else
      var digits := if s[0] == '+' then s[1..] else s;
      if digits != [] && IsDigits(digits) && FromDecimal(digits) <= U64_MAX
      then Some(FromDecimal(digits))
      else None
  }

  lemma ParseU64ToDecimal(n: nat)
    requires n <= U64_MAX
    ensures ParseU64(ToDecimal(n)) == Some(n)
  {
    FromToDecimal(n);
  }

  /** `char::is_whitespace`: the Unicode White_Space property. */
  predicate IsWhitespace(c: char) {
    c == ' ' || ('\t' <= c <= '\r') || c == '\U{0085}' || c == '\U{00A0}' || c == '\U{1680}'
    || ('\U{2000}' <= c <= '\U{200A}') || c == '\U{2028}' || c == '\U{2029}'
    || c == '\U{202F}' || c == '\U{205F}' || c == '\U{3000}'
  }

  predicate AllWhitespace(s: string) { forall i :: 0 <= i < |s| ==> IsWhitespace(s[i]) }

  predicate NoWhitespace(s: string) { forall i :: 0 <= i < |s| ==> !IsWhitespace(s[i]) }

  function TrimStart(s: string): (t: string)
    ensures |t| <= |s| && t == s[|s| - |t|..]
    ensures t == [] || !IsWhitespace(t[0])
  {
    if s != [] && IsWhitespace(s[0]) then TrimStart(s[1..]) else s
  }

  function TrimEnd(s: string): (t: string)
    ensures |t| <= |s| && t == s[..|t|]
    ensures t == [] || !IsWhitespace(t[|t| - 1])
  {
    if s != [] && IsWhitespace(s[|s| - 1]) then TrimEnd(s[..|s| - 1]) else s
  }

  /** `s.trim()`: `s` without leading and trailing whitespace. */
  function Trim(s: string): string {
    TrimEnd(TrimStart(s))
  }

  lemma {:induction false} TrimStartPadded(w: string, s: string)
    requires AllWhitespace(w)
    requires s == [] || !IsWhitespace(s[0])
    ensures TrimStart(w + s) == s
  {
    if w != [] {
      assert (w + s)[1..] == w[1..] + s;
      TrimStartPadded(w[1..], s);
    } else {
      assert w + s == s;
    }
  }

  lemma {:induction false} TrimEndPadded(s: string, w: string)
    requires AllWhitespace(w)
    requires s == [] || !IsWhitespace(s[|s| - 1])
    ensures TrimEnd(s + w) == s
  {
    if w != [] {
      assert (s + w)[..|s + w| - 1] == s + w[..|w| - 1];
      TrimEndPadded(s, w[..|w| - 1]);
    } else {
      assert s + w == s;
    }
  }

  /** Whitespace around a string that neither begins nor ends with whitespace is exactly what `trim` removes. */
  lemma TrimPadded(w1: string, s: string, w2: string)
    requires AllWhitespace(w1) && AllWhitespace(w2)
    requires s != [] && !IsWhitespace(s[0]) && !IsWhitespace(s[|s| - 1])
    ensures Trim(w1 + s + w2) == s
  {
    assert w1 + s + w2 == w1 + (s + w2);
    TrimStartPadded(w1, s + w2);
    TrimEndPadded(s, w2);
  }

  /** `s.split_once(c)`: the text before and after the first `c`. */
  function SplitOnce(s: string, c: char): (r: Option<(string, string)>)
    ensures r.None? <==> c !in s
    ensures r.Some? ==> s == r.value.0 + [c] + r.value.1 && c !in r.value.0
  {
    if s == [] then None
    else if s[0] == c then Some(([], s[1..]))
    else match SplitOnce(s[1..], c)
      case None => None
      case Some((l, r)) => Some(([s[0]] + l, r))
  }

  /** The split at the first `c` is the only one whose left part holds no `c`. */
  lemma {:induction false} SplitOnceUnique(l: string, c: char, r: string)
    requires c !in l
    ensures SplitOnce(l + [c] + r, c) == Some((l, r))
  {
    if l != [] {
      assert (l + [c] + r)[1..] == l[1..] + [c] + r;
      SplitOnceUnique(l[1..], c, r);
      assert [l[0]] + l[1..] == l;
    } else {
      assert (l + [c] + r)[1..] == r;
    }
  }

  /** `s.split(c)`: the pieces between occurrences of `c`; never empty. */
  function Split(s: string, c: char): (pieces: seq<string>)
    ensures |pieces| >= 1
    ensures forall i :: 0 <= i < |pieces| ==> c !in pieces[i]
    decreases |s|
  {
    match SplitOnce(s, c)
    case None => [s]
    case Some((l, r)) => [l] + Split(r, c)
  }

  /** Pieces glued back with `c` between them (`pieces.join(c)`). */
  function Join(pieces: seq<string>, c: char): string
    requires |pieces| >= 1
  {
    if |pieces| == 1 then pieces[0] else pieces[0] + [c] + Join(pieces[1..], c)
  }

  lemma {:induction false} SplitJoin(pieces: seq<string>, c: char)
    requires |pieces| >= 1
    requires forall i :: 0 <= i < |pieces| ==> c !in pieces[i]
    ensures Split(Join(pieces, c), c) == pieces
  {
    if |pieces| == 1 {
      assert SplitOnce(pieces[0], c).None?;
    } else {
      SplitOnceUnique(pieces[0], c, Join(pieces[1..], c));
      SplitJoin(pieces[1..], c);
      assert [pieces[0]] + pieces[1..] == pieces;
    }
  }

  /** Non-empty tokens free of whitespace, stated one token at a time. */
  predicate IsTokens(tokens: seq<string>) {
    tokens == [] || (tokens[0] != [] && NoWhitespace(tokens[0]) && IsTokens(tokens[1..]))
  }

  /** Runs of whitespace, every one but the last non-empty, stated one run at a time. */
  predicate IsGaps(gaps: seq<string>) {
    gaps == [] || (AllWhitespace(gaps[0]) && (|gaps| > 1 ==> gaps[0] != []) && IsGaps(gaps[1..]))
  }

  /** The length of the longest whitespace-free prefix of `s`. */
  function TokenLength(s: string): (k: nat)
    ensures k <= |s| && NoWhitespace(s[..k])
    ensures k < |s| ==> IsWhitespace(s[k])
    ensures s != [] && !IsWhitespace(s[0]) ==> k >= 1
  {
    if s == [] || IsWhitespace(s[0]) then 0 else 1 + TokenLength(s[1..])
  }

  /** `s.split_whitespace()`: the maximal non-empty runs of non-whitespace, in order. */
  function SplitWhitespace(s: string): (tokens: seq<string>)
    ensures IsTokens(tokens)
    decreases |s|
  {
    var t := TrimStart(s);
    if t == [] then []
    else
      var k := TokenLength(t);
      var rest := SplitWhitespace(t[k..]);
      assert ([t[..k]] + rest)[1..] == rest;
      [t[..k]] + rest
  }

  /** Tokens separated by non-empty runs of whitespace, with optional whitespace before the first. */
  function Spaced(lead: string, tokens: seq<string>, gaps: seq<string>): string
    requires |gaps| == |tokens|
    decreases |tokens|
  {
    if tokens == [] then lead else lead + tokens[0] + Spaced(gaps[0], tokens[1..], gaps[1..])
  }

  lemma {:induction false} TokenLengthOfToken(tok: string, rest: string)
    requires NoWhitespace(tok)
    requires rest == [] || IsWhitespace(rest[0])
    ensures TokenLength(tok + rest) == |tok|
  {
    if tok != [] {
      assert (tok + rest)[1..] == tok[1..] + rest;
      TokenLengthOfToken(tok[1..], rest);
    } else {
      assert tok + rest == rest;
    }
  }

  /** A token after leading whitespace, and before whitespace or the end, is the first one `split_whitespace` yields. */
  lemma SplitWhitespaceFirst(lead: string, tok: string, rest: string)
    requires AllWhitespace(lead) && tok != [] && NoWhitespace(tok)
    requires rest == [] || IsWhitespace(rest[0])
    ensures SplitWhitespace(lead + tok + rest) == [tok] + SplitWhitespace(rest)
  {
    assert lead + tok + rest == lead + (tok + rest);
    TrimStartPadded(lead, tok + rest);
    TokenLengthOfToken(tok, rest);
    assert (tok + rest)[..|tok|] == tok;
    assert (tok + rest)[|tok|..] == rest;
  }

  lemma {:induction false} IsTokensOf(tokens: seq<string>)
    requires forall i :: 0 <= i < |tokens| ==> tokens[i] != [] && NoWhitespace(tokens[i])
    ensures IsTokens(tokens)
    decreases |tokens|
  {
    if tokens != [] {
      assert forall i :: 0 <= i < |tokens| - 1 ==> tokens[1..][i] == tokens[i + 1];
      IsTokensOf(tokens[1..]);
    }
  }

  lemma {:induction false} IsGapsOf(gaps: seq<string>)
    requires forall i :: 0 <= i < |gaps| ==> AllWhitespace(gaps[i])
    requires forall i :: 0 <= i < |gaps| - 1 ==> gaps[i] != []
    ensures IsGaps(gaps)
    decreases |gaps|
  {
    if gaps != [] {
      assert forall i :: 0 <= i < |gaps| - 1 ==> gaps[1..][i] == gaps[i + 1];
      IsGapsOf(gaps[1..]);
    }
  }

  /** `split_whitespace` recovers the tokens however much whitespace separates them. */
  lemma SplitWhitespaceSpaced(lead: string, tokens: seq<string>, gaps: seq<string>)
    requires |gaps| == |tokens|
    requires AllWhitespace(lead)
    requires forall i :: 0 <= i < |tokens| ==> tokens[i] != [] && NoWhitespace(tokens[i])
    requires forall i :: 0 <= i < |gaps| ==> AllWhitespace(gaps[i])
    requires forall i :: 0 <= i < |gaps| - 1 ==> gaps[i] != []
    ensures SplitWhitespace(Spaced(lead, tokens, gaps)) == tokens
  {
    IsTokensOf(tokens);
    IsGapsOf(gaps);
    SplitWhitespaceOfGaps(lead, tokens, gaps);
  }

  /** A non-empty sequence is its head followed by its tail. */
  lemma HeadTail<T>(s: seq<T>)
    requires s != []
    ensures [s[0]] + s[1..] == s
  {
  }

  /** Spaced tokens after a blank lead, non-empty when a token follows, start with whitespace or are empty. */
  lemma SpacedStartsBlank(lead: string, tokens: seq<string>, gaps: seq<string>)
    requires |gaps| == |tokens| && AllWhitespace(lead) && (tokens != [] ==> lead != [])
    ensures Spaced(lead, tokens, gaps) == [] || IsWhitespace(Spaced(lead, tokens, gaps)[0])
  {
    if tokens != [] {
      assert Spaced(lead, tokens, gaps)[0] == lead[0];
    }
  }

  lemma {:induction false} SplitWhitespaceOfGaps(lead: string, tokens: seq<string>, gaps: seq<string>)
    requires |gaps| == |tokens| && AllWhitespace(lead) && IsTokens(tokens) && IsGaps(gaps)
    ensures SplitWhitespace(Spaced(lead, tokens, gaps)) == tokens
    decreases |tokens|
  {
    if tokens == [] {
      TrimStartPadded(lead, []);
      assert lead + [] == lead;
    } else {
      SplitWhitespaceSpacedStep(lead, tokens, gaps);
      SplitWhitespaceOfGaps(gaps[0], tokens[1..], gaps[1..]);
      HeadTail(tokens);
    }
  }

  /** The first token of spaced tokens comes first out of `split_whitespace`. */
  lemma SplitWhitespaceSpacedStep(lead: string, tokens: seq<string>, gaps: seq<string>)
    requires |gaps| == |tokens| && AllWhitespace(lead) && IsTokens(tokens) && IsGaps(gaps) && tokens != []
    ensures SplitWhitespace(Spaced(lead, tokens, gaps))
         == [tokens[0]] + SplitWhitespace(Spaced(gaps[0], tokens[1..], gaps[1..]))
  {
    var rest := Spaced(gaps[0], tokens[1..], gaps[1..]);
    SpacedStartsBlank(gaps[0], tokens[1..], gaps[1..]);
    SplitWhitespaceFirst(lead, tokens[0], rest);
  }

  /** A line as `str::lines` yields it: a `\r` right before the `\n` is dropped. */
  function StripCarriageReturn(line: string): string {
    if line != [] && line[|line| - 1] == '\r' then line[..|line| - 1] else line
  }

  /**
    `s.lines()`: the text split after each `\n`, each line without its `\n` or `\r\n`;
    a final line ending does not start an empty last line.
  */
  function Lines(s: string): (lines: seq<string>)
    ensures forall i :: 0 <= i < |lines| ==> '\n' !in lines[i]
    ensures s == [] <==> lines == []
    decreases |s|
  {
    match SplitOnce(s, '\n')
    case None => if s == [] then [] else [s]
    case Some((l, r)) => [StripCarriageReturn(l)] + Lines(r)
  }

  /** Lines each ended by `\r\n` come back as they were. */
  lemma {:induction false} LinesOfTerminated(lines: seq<string>)
    requires forall i :: 0 <= i < |lines| ==> '\n' !in lines[i] && '\r' !in lines[i]
    ensures Lines(Terminated(lines)) == lines
  {
    if lines != [] {
      var l := lines[0];
      assert Terminated(lines) == (l + ['\r']) + ['\n'] + Terminated(lines[1..]);
      assert '\n' !in l + ['\r'];
      SplitOnceUnique(l + ['\r'], '\n', Terminated(lines[1..]));
      assert StripCarriageReturn(l + ['\r']) == l;
      LinesOfTerminated(lines[1..]);
      assert [l] + lines[1..] == lines;
    }
  }

  /** Each line followed by `\r\n`, as a text file written on Windows. */
  function Terminated(lines: seq<string>): string {
    if lines == [] then [] else lines[0] + "\r\n" + Terminated(lines[1..])
  }
}
