/** Splits a query expression into tokens. */
module Lexer {
  import opened Wrappers

  datatype Token =
    | Slash             // a single `/`
    | DoubleSlash       // `//`, read greedily as one unit
    | LBracket
    | RBracket
    | Comma
    | Equals
    | Word(text: string)    // a maximal run of letters, case preserved
    | Number(value: nat)    // a maximal run of decimal digits

  predicate IsLetter(c: char) {
    'a' <= c <= 'z' || 'A' <= c <= 'Z'
  }

  predicate IsDigit(c: char) {
    '0' <= c <= '9'
  }

  /** ASCII lower-casing of one character; every other character is unchanged. */
  function Lower(c: char): (r: char)
    ensures IsLetter(r) <==> IsLetter(c)
    ensures IsDigit(c) ==> r == c
    ensures !IsLetter(c) ==> r == c
    ensures 'A' <= r <= 'Z' ==> false
  {
    if 'A' <= c <= 'Z' then (c as int + 32) as char else c
  }

  function LowerString(s: string): (r: string)
    ensures |r| == |s|
  {
    seq(|s|, i requires 0 <= i < |s| => Lower(s[i]))
  }

  /** The length of the longest prefix of `s` made of letters. */
  function LetterRun(s: string): (n: nat)
    ensures n <= |s|
    ensures forall i :: 0 <= i < n ==> IsLetter(s[i])
    ensures n == |s| || !IsLetter(s[n])
  {
    if s == [] || !IsLetter(s[0]) then 0 else 1 + LetterRun(s[1..])
  }

  /** The length of the longest prefix of `s` made of digits. */
  function DigitRun(s: string): (n: nat)
    ensures n <= |s|
    ensures forall i :: 0 <= i < n ==> IsDigit(s[i])
    ensures n == |s| || !IsDigit(s[n])
  {
    if s == [] || !IsDigit(s[0]) then 0 else 1 + DigitRun(s[1..])
  }

  /** The value of a string of decimal digits, most significant first. */
  function DigitsValue(d: string): nat
    decreases |d|
  {
    if d == [] then 0
    else if IsDigit(d[|d| - 1]) then DigitsValue(d[..|d| - 1]) * 10 + (d[|d| - 1] as int - '0' as int)
    else DigitsValue(d[..|d| - 1]) * 10
  }

  /** The length of the run of spaces at the head of `s`. */
  function SpaceRun(s: string): (n: nat)
    ensures n <= |s|
    ensures forall i :: 0 <= i < n ==> s[i] == ' '
    ensures n == |s| || s[n] != ' '
  {
    if s == [] || s[0] != ' ' then 0 else 1 + SpaceRun(s[1..])
  }

  function Prepend(t: Token, rest: Result<seq<Token>>): Result<seq<Token>> {
    match rest
    case Success(ts) => Success([t] + ts)
    case Failure => Failure
  }

  /** The first token of a non-empty text and the number of characters it
      takes (a comma takes the spaces after it too), or `None` when the text
      starts with a character outside the language: a quote, whitespace not
      directly after a comma, or other punctuation. */
  function NextToken(s: string): (r: Option<(Token, nat)>)
    requires s != []
    ensures r.Some? ==> 0 < r.value.1 <= |s|
  {
    if s[0] == '/' then
      if |s| > 1 && s[1] == '/' then Some((DoubleSlash, 2)) else Some((Slash, 1))
    else if s[0] == '[' then Some((LBracket, 1))
    else if s[0] == ']' then Some((RBracket, 1))
    else if s[0] == '=' then Some((Equals, 1))
    else if s[0] == ',' then Some((Comma, 1 + SpaceRun(s[1..])))
    else if IsLetter(s[0]) then
      var n := LetterRun(s);
      Some((Word(s[..n]), n))
    else if IsDigit(s[0]) then
      var n := DigitRun(s);
      Some((Number(DigitsValue(s[..n])), n))
    else None
  }

  /** The token stream of an expression, or `Failure` on a character outside
      the language. */
  function Tokenize(s: string): Result<seq<Token>>
    decreases |s|
  {
    if s == [] then Success([])
    else
      match NextToken(s)
      case None => Failure
      case Some((t, n)) => Prepend(t, Tokenize(s[n..]))
  }

  /* ---------------------------------------------------------------------
     Printing tokens back to text: the inverse the tokenizer is proved against.
     --------------------------------------------------------------------- */

  function DigitChar(d: nat): (c: char)
    requires d < 10
    ensures IsDigit(c) && c as int - '0' as int == d
  {
    ('0' as int + d) as char
  }

  /** The decimal numeral of `v`, without leading zeros. */
  function NatToString(v: nat): string
    decreases v
  {
    if v < 10 then [DigitChar(v)] else NatToString(v / 10) + [DigitChar(v % 10)]
  }

  /** A numeral is a non-empty run of digits that reads back as its value. */
  lemma {:induction false} NatToStringDigits(v: nat)
    ensures var d := NatToString(v);
      d != [] && (forall i :: 0 <= i < |d| ==> IsDigit(d[i])) && DigitsValue(d) == v
    decreases v
  {
    if v >= 10 {
      NatToStringDigits(v / 10);
      var d := NatToString(v);
      assert d[..|d| - 1] == NatToString(v / 10);
    }
  }

  /** The text of one token; `spaced` writes a space after every comma. */
  function Text(t: Token, spaced: bool): string {
    match t
    case Slash => "/"
    case DoubleSlash => "//"
    case LBracket => "["
    case RBracket => "]"
    case Comma => if spaced then ", " else ","
    case Equals => "="
    case Word(w) => w
    case Number(v) => NatToString(v)
  }

  /** The text of a token sequence, token after token. */
  function Unlex(ts: seq<Token>, spaced: bool): string
    decreases |ts|
  {
    if ts == [] then "" else Text(ts[0], spaced) + Unlex(ts[1..], spaced)
  }

  /** A word token holds a non-empty run of letters. */
  predicate TokenOk(t: Token) {
    t.Word? ==> t.text != [] && forall i :: 0 <= i < |t.text| ==> IsLetter(t.text[i])
  }

  /** Token `b` may be written right after token `a` without the two texts
      running together (two words, two numbers, or a slash before a slash). */
  predicate Follows(a: Token, b: Token) {
    && !(a.Word? && b.Word?)
    && !(a.Number? && b.Number?)
    && !(a == Slash && (b == Slash || b == DoubleSlash))
  }

  /** A token sequence whose text reads back as the same tokens. */
  predicate Lexable(ts: seq<Token>) {
    && (forall i :: 0 <= i < |ts| ==> TokenOk(ts[i]))
    && (forall i :: 0 <= i < |ts| - 1 ==> Follows(ts[i], ts[i + 1]))
  }

  /** Character `c` may directly follow the text of token `t`. */
  predicate CanFollow(t: Token, c: char) {
    match t
    case Slash => c != '/'
    case Comma => c != ' '
    case Word(_) => !IsLetter(c)
    case Number(_) => !IsDigit(c)
    case _ => true
  }

  lemma {:induction false} LetterRunOf(w: string, r: string)
    requires forall i :: 0 <= i < |w| ==> IsLetter(w[i])
    requires r == [] || !IsLetter(r[0])
    ensures LetterRun(w + r) == |w|
    decreases |w|
  {
    if w != [] {
      assert (w + r)[1..] == w[1..] + r;
      LetterRunOf(w[1..], r);
    } else {
      assert w + r == r;
    }
  }

  lemma {:induction false} DigitRunOf(d: string, r: string)
    requires forall i :: 0 <= i < |d| ==> IsDigit(d[i])
    requires r == [] || !IsDigit(r[0])
    ensures DigitRun(d + r) == |d|
    decreases |d|
  {
    if d != [] {
      assert (d + r)[1..] == d[1..] + r;
      DigitRunOf(d[1..], r);
    } else {
      assert d + r == r;
    }
  }

  /** The first token of the text of `t` followed by `r` is `t`, and it
      takes exactly the text of `t`. */
  lemma NextTokenOfText(t: Token, r: string, spaced: bool)
    requires TokenOk(t)
    requires r == [] || CanFollow(t, r[0])
    ensures var s := Text(t, spaced) + r;
      s != [] && NextToken(s) == Some((t, |Text(t, spaced)|)) && s[|Text(t, spaced)|..] == r
  {
    match t
    case Word(w) => WordOfText(w, r, spaced);
    case Number(v) => NumberOfText(v, r, spaced);
    case Comma => CommaOfText(r, spaced);
    case _ => SymbolOfText(t, r, spaced);
  }

  lemma {:induction false} SymbolOfText(t: Token, r: string, spaced: bool)
    requires t == Slash || t == DoubleSlash || t == LBracket || t == RBracket || t == Equals
    requires r == [] || CanFollow(t, r[0])
    ensures var s := Text(t, spaced) + r;
      s != [] && NextToken(s) == Some((t, |Text(t, spaced)|)) && s[|Text(t, spaced)|..] == r
  {
    var s := Text(t, spaced) + r;
    if t == DoubleSlash {
      assert s[2..] == r;
    } else {
      assert s[1..] == r;
    }
  }

  lemma {:induction false} CommaOfText(r: string, spaced: bool)
    requires r == [] || CanFollow(Comma, r[0])
    ensures var s := Text(Comma, spaced) + r;
      s != [] && NextToken(s) == Some((Comma, |Text(Comma, spaced)|)) && s[|Text(Comma, spaced)|..] == r
  {
    var s := Text(Comma, spaced) + r;
    if spaced {
      assert s[1..] == " " + r;
      assert (" " + r)[1..] == r;
      assert s[2..] == r;
    } else {
      assert s[1..] == r;
    }
  }

  lemma {:induction false} WordOfText(w: string, r: string, spaced: bool)
    requires TokenOk(Word(w))
    requires r == [] || CanFollow(Word(w), r[0])
    ensures var s := Text(Word(w), spaced) + r;
      s != [] && NextToken(s) == Some((Word(w), |Text(Word(w), spaced)|)) && s[|Text(Word(w), spaced)|..] == r
  {
    var s := w + r;
    LetterRunOf(w, r);
    assert s[..|w|] == w && s[|w|..] == r;
  }

  lemma {:induction false} NumberOfText(v: nat, r: string, spaced: bool)
    requires r == [] || CanFollow(Number(v), r[0])
    ensures var s := Text(Number(v), spaced) + r;
      s != [] && NextToken(s) == Some((Number(v), |Text(Number(v), spaced)|)) && s[|Text(Number(v), spaced)|..] == r
  {
    var d := NatToString(v);
    var s := d + r;
    NatToStringDigits(v);
    DigitRunOf(d, r);
    assert s[..|d|] == d && s[|d|..] == r;
  }

  /** Tokenizing the text of one token followed by `r` yields that token
      followed by the tokens of `r`. */
  lemma TokenizeStep(t: Token, r: string, spaced: bool)
    requires TokenOk(t)
    requires r == [] || CanFollow(t, r[0])
    ensures Tokenize(Text(t, spaced) + r) == Prepend(t, Tokenize(r))
  {
    NextTokenOfText(t, r, spaced);
  }

  lemma UnlexHead(ts: seq<Token>, spaced: bool)
    requires ts != [] && TokenOk(ts[0])
    ensures Unlex(ts, spaced) != [] && Unlex(ts, spaced)[0] == Text(ts[0], spaced)[0]
  {
    if ts[0].Number? {
      NatToStringDigits(ts[0].value);
    }
  }

  function PrependAll(ts: seq<Token>, rest: Result<seq<Token>>): Result<seq<Token>> {
    match rest
    case Success(more) => Success(ts + more)
    case Failure => Failure
  }

  lemma PrependAllCons(ts: seq<Token>, rest: Result<seq<Token>>)
    requires ts != []
    ensures PrependAll(ts, rest) == Prepend(ts[0], PrependAll(ts[1..], rest))
  {
    if rest.Success? {
      assert [ts[0]] + (ts[1..] + rest.value) == ts + rest.value;
    }
  }

  lemma LexableTail(ts: seq<Token>)
    requires Lexable(ts) && ts != []
    ensures Lexable(ts[1..])
  {
    var rest := ts[1..];
    forall i | 0 <= i < |rest| - 1 ensures Follows(rest[i], rest[i + 1]) {
      assert Follows(ts[i + 1], ts[i + 2]);
    }
  }

  /** The text of a lexable token sequence followed by `r` splits after the
      text of its first token, and the remainder does not run into it. */
  lemma UnlexSplit(ts: seq<Token>, r: string, spaced: bool)
    requires Lexable(ts) && ts != []
    requires r != [] ==> CanFollow(ts[|ts| - 1], r[0])
    ensures var u := Unlex(ts[1..], spaced) + r;
      && (u == [] || CanFollow(ts[0], u[0]))
      && Unlex(ts, spaced) + r == Text(ts[0], spaced) + u
  {
    var rest := ts[1..];
    if rest != [] {
      UnlexHead(rest, spaced);
      assert Follows(ts[0], ts[1]);
      if ts[1].Number? {
        NatToStringDigits(ts[1].value);
      }
    }
  }

  /** The inductive step of `TokenizeAppend`. */
  lemma TokenizeAppendStep(ts: seq<Token>, r: string, spaced: bool)
    requires Lexable(ts) && ts != []
    requires r != [] ==> CanFollow(ts[|ts| - 1], r[0])
    requires Tokenize(Unlex(ts[1..], spaced) + r) == PrependAll(ts[1..], Tokenize(r))
    ensures Tokenize(Unlex(ts, spaced) + r) == PrependAll(ts, Tokenize(r))
  {
    var u := Unlex(ts[1..], spaced) + r;
    UnlexSplit(ts, r, spaced);
    TokenizeStep(ts[0], u, spaced);
    PrependAllCons(ts, Tokenize(r));
  }

  /** The text of a lexable token sequence, followed by any text `r` that does
      not run into its last token, reads back as those tokens followed by the
      tokens of `r`; in particular it fails exactly when `r` fails. */
  lemma {:induction false} TokenizeAppend(ts: seq<Token>, r: string, spaced: bool)
    requires Lexable(ts)
    requires ts != [] && r != [] ==> CanFollow(ts[|ts| - 1], r[0])
    ensures Tokenize(Unlex(ts, spaced) + r) == PrependAll(ts, Tokenize(r))
    decreases |ts|
  {
    if ts == [] {
      assert Unlex(ts, spaced) + r == r;
      assert PrependAll(ts, Tokenize(r)) == Tokenize(r) by {
        if Tokenize(r).Success? {
          assert ts + Tokenize(r).value == Tokenize(r).value;
        }
      }
    } else {
      LexableTail(ts);
      TokenizeAppend(ts[1..], r, spaced);
      TokenizeAppendStep(ts, r, spaced);
    }
  }

  /** Reading back the text of a lexable token sequence gives the same tokens. */
  lemma LexUnlex(ts: seq<Token>, spaced: bool)
    requires Lexable(ts)
    ensures Tokenize(Unlex(ts, spaced)) == Success(ts)
  {
    TokenizeAppend(ts, [], spaced);
    assert Unlex(ts, spaced) + [] == Unlex(ts, spaced);
    assert ts + [] == ts;
  }

  /* ---------------------------------------------------------------------
     Every text the tokenizer accepts, described: the ways its tokens can be
     written, with any run of spaces after a comma and any leading zeros.
     --------------------------------------------------------------------- */

  /** `n` copies of the character `c`. */
  function Repeat(c: char, n: nat): (r: string)
    ensures |r| == n && forall i :: 0 <= i < n ==> r[i] == c
  {
    if n == 0 then [] else [c] + Repeat(c, n - 1)
  }

  /** One way of writing token `t`: a comma followed by `pad` spaces, a
      number with `pad` leading zeros, any other token as itself. */
  function PaddedText(t: Token, pad: nat): string {
    match t
    case Comma => "," + Repeat(' ', pad)
    case Number(v) => Repeat('0', pad) + NatToString(v)
    case _ => Text(t, false)
  }

  /** The text of a token sequence, token `i` written with padding `pads[i]`. */
  function UnlexPadded(ts: seq<Token>, pads: seq<nat>): string
    requires |pads| == |ts|
    decreases |ts|
  {
    if ts == [] then "" else PaddedText(ts[0], pads[0]) + UnlexPadded(ts[1..], pads[1..])
  }

  /** A leading zero does not change the value of a numeral. */
  lemma {:induction false} LeadingZero(e: string)
    ensures DigitsValue("0" + e) == DigitsValue(e)
    decreases |e|
  {
    var x := "0" + e;
    if e == [] {
      assert x[..0] == [];
    } else {
      assert x[..|x| - 1] == "0" + e[..|e| - 1];
      assert x[|x| - 1] == e[|e| - 1];
      LeadingZero(e[..|e| - 1]);
    }
  }

  lemma {:induction false} ZerosValue(p: nat, d: string)
    ensures DigitsValue(Repeat('0', p) + d) == DigitsValue(d)
    decreases p
  {
    if p > 0 {
      var z := Repeat('0', p - 1) + d;
      assert Repeat('0', p) + d == "0" + z;
      LeadingZero(z);
      ZerosValue(p - 1, d);
    } else {
      assert Repeat('0', p) + d == d;
    }
  }

  /** A numeral that does not start with a zero has a positive value. */
  lemma {:induction false} DigitsPositive(d: string)
    requires d != [] && (forall i :: 0 <= i < |d| ==> IsDigit(d[i])) && d[0] != '0'
    ensures DigitsValue(d) > 0
    decreases |d|
  {
    if |d| == 1 {
      assert d[..0] == [];
    } else {
      DigitsPositive(d[..|d| - 1]);
    }
  }

  /** A numeral without leading zeros is the printed form of its value. */
  lemma {:induction false} CanonicalDigits(d: string)
    requires d != [] && (forall i :: 0 <= i < |d| ==> IsDigit(d[i]))
    requires |d| == 1 || d[0] != '0'
    ensures NatToString(DigitsValue(d)) == d
    decreases |d|
  {
    if |d| == 1 {
      assert d[..0] == [];
      assert NatToString(DigitsValue(d)) == [DigitChar(d[0] as int - '0' as int)];
    } else {
      var e := d[..|d| - 1];
      var c := d[|d| - 1] as int - '0' as int;
      CanonicalDigits(e);
      DigitsPositive(e);
      var v := DigitsValue(d);
      assert v == DigitsValue(e) * 10 + c;
      assert v / 10 == DigitsValue(e) && v % 10 == c;
      assert NatToString(v) == e + [DigitChar(c)];
      assert e + [d[|d| - 1]] == d;
    }
  }

  /** Every run of digits is some zeros followed by the printed form of its value. */
  lemma {:induction false} DigitsPad(d: string) returns (p: nat)
    requires d != [] && forall i :: 0 <= i < |d| ==> IsDigit(d[i])
    ensures d == Repeat('0', p) + NatToString(DigitsValue(d))
    decreases |d|
  {
    if |d| > 1 && d[0] == '0' {
      var e := d[1..];
      assert d == "0" + e;
      LeadingZero(e);
      var q := DigitsPad(e);
      p := q + 1;
      assert Repeat('0', p) == "0" + Repeat('0', q);
      AppendAssoc("0", Repeat('0', q), NatToString(DigitsValue(e)));
    } else {
      p := 0;
      CanonicalDigits(d);
      assert Repeat('0', p) + NatToString(DigitsValue(d)) == NatToString(DigitsValue(d));
    }
  }

  lemma {:induction false} SpaceRunOf(p: nat, r: string)
    requires r == [] || r[0] != ' '
    ensures SpaceRun(Repeat(' ', p) + r) == p
    decreases p
  {
    if p > 0 {
      assert (Repeat(' ', p) + r)[1..] == Repeat(' ', p - 1) + r;
      SpaceRunOf(p - 1, r);
    } else {
      assert Repeat(' ', p) + r == r;
    }
  }

  /** The first token of a text, and how it is written there. */
  lemma NextTokenPad(s: string) returns (p: nat)
    requires s != [] && NextToken(s).Some?
    ensures var (t, n) := NextToken(s).value;
      TokenOk(t) && s[..n] == PaddedText(t, p) && (n < |s| ==> CanFollow(t, s[n]))
  {
    if s[0] == ',' {
      p := CommaPad(s);
    } else if IsLetter(s[0]) {
      p := 0;
      WordPad(s);
    } else if IsDigit(s[0]) {
      p := NumberPad(s);
    } else {
      p := 0;
    }
  }

  lemma {:induction false} CommaPad(s: string) returns (p: nat)
    requires s != [] && s[0] == ','
    ensures var (t, n) := NextToken(s).value;
      TokenOk(t) && s[..n] == PaddedText(t, p) && (n < |s| ==> CanFollow(t, s[n]))
  {
    p := SpaceRun(s[1..]);
    assert s[..1 + p] == "," + Repeat(' ', p);
  }

  lemma {:induction false} WordPad(s: string)
    requires s != [] && IsLetter(s[0])
    ensures var (t, n) := NextToken(s).value;
      TokenOk(t) && s[..n] == PaddedText(t, 0) && (n < |s| ==> CanFollow(t, s[n]))
  {
    assert LetterRun(s) > 0;
  }

  lemma {:induction false} NumberPad(s: string) returns (p: nat)
    requires s != [] && IsDigit(s[0])
    ensures var (t, n) := NextToken(s).value;
      TokenOk(t) && s[..n] == PaddedText(t, p) && (n < |s| ==> CanFollow(t, s[n]))
  {
    assert DigitRun(s) > 0;
    p := DigitsPad(s[..DigitRun(s)]);
  }

  /** How an accepted non-empty text is read: its first token, then the rest. */
  lemma TokenizeCons(s: string)
    requires s != [] && Tokenize(s).Success?
    ensures NextToken(s).Some?
    ensures var (t, n) := NextToken(s).value;
      Tokenize(s[n..]).Success? && Tokenize(s).value == [t] + Tokenize(s[n..]).value
  {
  }

  /** A token whose text may be followed by the first character of an
      accepted text may be followed by the first token read from it. */
  lemma FollowsNext(t: Token, u: string)
    requires u != [] ==> CanFollow(t, u[0])
    requires Tokenize(u).Success?
    ensures Tokenize(u).value != [] ==> Follows(t, Tokenize(u).value[0])
  {
    if u != [] {
      TokenizeCons(u);
    }
  }

  lemma LexableCons(t: Token, ts: seq<Token>)
    requires TokenOk(t) && Lexable(ts)
    requires ts != [] ==> Follows(t, ts[0])
    ensures Lexable([t] + ts)
  {
    LexableAppend([t], ts);
  }

  /** A padded token before the padded writing of lexable tokens it may
      precede. */
  lemma {:induction false} PadsCons(s: string, n: nat, t: Token, p: nat, rest: seq<Token>, more: seq<nat>)
    requires n <= |s| && TokenOk(t) && s[..n] == PaddedText(t, p)
    requires Lexable(rest) && |more| == |rest| && UnlexPadded(rest, more) == s[n..]
    requires rest != [] ==> Follows(t, rest[0])
    ensures Lexable([t] + rest) && UnlexPadded([t] + rest, [p] + more) == s
  {
    LexableCons(t, rest);
    assert ([t] + rest)[1..] == rest && ([p] + more)[1..] == more;
    assert s == s[..n] + s[n..];
  }

  /** What the tokenizer accepts is a lexable token sequence, written out
      with some padding: the witness of `TokenizeSound`. */
  lemma {:induction false} TokenizePads(s: string) returns (pads: seq<nat>)
    requires Tokenize(s).Success?
    ensures var ts := Tokenize(s).value;
      Lexable(ts) && |pads| == |ts| && UnlexPadded(ts, pads) == s
    decreases |s|
  {
    if s == [] {
      pads := [];
    } else {
      TokenizeCons(s);
      var (t, n) := NextToken(s).value;
      var u := s[n..];
      var more := TokenizePads(u);
      var p := NextTokenPad(s);
      FollowsNext(t, u);
      PadsCons(s, n, t, p, Tokenize(u).value, more);
      pads := [p] + more;
    }
  }

  /** Every text the tokenizer accepts is the text of the lexable tokens it
      returns, each comma followed by some run of spaces and each number
      written with some leading zeros. */
  lemma TokenizeSound(s: string)
    requires Tokenize(s).Success?
    ensures Lexable(Tokenize(s).value)
    ensures exists pads: seq<nat> :: |pads| == |Tokenize(s).value| && UnlexPadded(Tokenize(s).value, pads) == s
  {
    var pads := TokenizePads(s);
  }

  /** The first character of a padded token tells its kind. */
  lemma PaddedHead(t: Token, p: nat)
    requires TokenOk(t)
    ensures var x := PaddedText(t, p);
      && x != [] && x[0] != ' '
      && (IsLetter(x[0]) <==> t.Word?) && (IsDigit(x[0]) <==> t.Number?)
      && (x[0] == '/' <==> t == Slash || t == DoubleSlash)
  {
    if t.Number? {
      NatToStringDigits(t.value);
    }
  }

  /** The padded text of lexable tokens does not run into a token before
      them that may be followed by the first one. */
  lemma PaddedFollows(t: Token, ts: seq<Token>, pads: seq<nat>)
    requires Lexable(ts) && |pads| == |ts|
    requires ts != [] ==> Follows(t, ts[0])
    ensures var u := UnlexPadded(ts, pads); u == [] || CanFollow(t, u[0])
  {
    if ts != [] {
      PaddedHead(ts[0], pads[0]);
    }
  }

  lemma {:induction false} CommaPadded(p: nat, u: string)
    requires u == [] || CanFollow(Comma, u[0])
    ensures Tokenize(PaddedText(Comma, p) + u) == Prepend(Comma, Tokenize(u))
  {
    var s := PaddedText(Comma, p) + u;
    assert s[1..] == Repeat(' ', p) + u;
    SpaceRunOf(p, u);
    assert s[1 + p..] == u;
  }

  /** A run of digits before a non-digit is read as one number. */
  lemma {:induction false} DigitsToken(d: string, u: string)
    requires d != [] && forall i :: 0 <= i < |d| ==> IsDigit(d[i])
    requires u == [] || !IsDigit(u[0])
    ensures NextToken(d + u) == Some((Number(DigitsValue(d)), |d|)) && (d + u)[|d|..] == u
  {
    var s := d + u;
    DigitRunOf(d, u);
    assert s[..|d|] == d && s[|d|..] == u;
  }

  lemma {:induction false} NumberPadded(v: nat, p: nat, u: string)
    requires u == [] || CanFollow(Number(v), u[0])
    ensures Tokenize(PaddedText(Number(v), p) + u) == Prepend(Number(v), Tokenize(u))
  {
    var d := Repeat('0', p) + NatToString(v);
    NatToStringDigits(v);
    ZerosValue(p, NatToString(v));
    assert forall i :: 0 <= i < |d| ==> IsDigit(d[i]);
    DigitsToken(d, u);
  }

  /** Tokenizing a padded token followed by `u` gives that token and the tokens of `u`. */
  lemma PaddedStep(t: Token, p: nat, u: string)
    requires TokenOk(t)
    requires u == [] || CanFollow(t, u[0])
    ensures Tokenize(PaddedText(t, p) + u) == Prepend(t, Tokenize(u))
  {
    match t
    case Comma => CommaPadded(p, u);
    case Number(v) => NumberPadded(v, p, u);
    case _ => TokenizeStep(t, u, false);
  }

  /** Every padded writing of a lexable token sequence reads back as it. */
  lemma {:induction false} TokenizePadded(ts: seq<Token>, pads: seq<nat>)
    requires Lexable(ts) && |pads| == |ts|
    ensures Tokenize(UnlexPadded(ts, pads)) == Success(ts)
    decreases |ts|
  {
    if ts != [] {
      var u := UnlexPadded(ts[1..], pads[1..]);
      LexableTail(ts);
      TokenizePadded(ts[1..], pads[1..]);
      PaddedFollows(ts[0], ts[1..], pads[1..]);
      PaddedStep(ts[0], pads[0], u);
      assert [ts[0]] + ts[1..] == ts;
    }
  }

  /** The tokenizer, stated declaratively: `s` reads as `ts` exactly when
      `ts` is lexable and `s` is one of its padded writings. */
  lemma TokenizeIff(s: string, ts: seq<Token>)
    ensures Tokenize(s) == Success(ts) <==>
      Lexable(ts) && exists pads: seq<nat> :: |pads| == |ts| && UnlexPadded(ts, pads) == s
  {
    if Tokenize(s) == Success(ts) {
      TokenizeSound(s);
    }
    if Lexable(ts) && exists pads: seq<nat> :: |pads| == |ts| && UnlexPadded(ts, pads) == s {
      var pads: seq<nat> :| |pads| == |ts| && UnlexPadded(ts, pads) == s;
      TokenizePadded(ts, pads);
    }
  }

  /* ---------------------------------------------------------------------
     Letter case: words are compared only after lower-casing.
     --------------------------------------------------------------------- */

  lemma AppendAssoc<T>(a: seq<T>, b: seq<T>, c: seq<T>)
    ensures a + b + c == a + (b + c)
  {
  }

  function LowerToken(t: Token): Token {
    if t.Word? then Word(LowerString(t.text)) else t
  }

  function LowerTokens(ts: seq<Token>): (r: seq<Token>)
    ensures |r| == |ts|
  {
    seq(|ts|, i requires 0 <= i < |ts| => LowerToken(ts[i]))
  }

  function LowerResult(r: Result<seq<Token>>): Result<seq<Token>> {
    match r
    case Success(ts) => Success(LowerTokens(ts))
    case Failure => Failure
  }

  lemma LowerCharIs(c: char, d: char)
    requires !IsLetter(d)
    ensures Lower(c) == d <==> c == d
  {
  }

  lemma {:induction false} LetterRunLower(s: string)
    ensures LetterRun(LowerString(s)) == LetterRun(s)
    decreases |s|
  {
    if s != [] {
      assert LowerString(s)[0] == Lower(s[0]);
      assert LowerString(s)[1..] == LowerString(s[1..]);
      LetterRunLower(s[1..]);
    }
  }

  lemma {:induction false} DigitRunLower(s: string)
    ensures DigitRun(LowerString(s)) == DigitRun(s)
    decreases |s|
  {
    if s != [] {
      assert LowerString(s)[0] == Lower(s[0]);
      assert LowerString(s)[1..] == LowerString(s[1..]);
      DigitRunLower(s[1..]);
    }
  }

  lemma {:induction false} SpaceRunLower(s: string)
    ensures SpaceRun(LowerString(s)) == SpaceRun(s)
    decreases |s|
  {
    if s != [] {
      assert LowerString(s)[0] == Lower(s[0]);
      assert LowerString(s)[1..] == LowerString(s[1..]);
      SpaceRunLower(s[1..]);
    }
  }

  function LowerNext(r: Option<(Token, nat)>): Option<(Token, nat)> {
    match r
    case None => None
    case Some((t, n)) => Some((LowerToken(t), n))
  }

  /** Lower-casing the text lower-cases the first token and takes as many characters. */
  lemma NextTokenLower(s: string)
    requires s != []
    ensures NextToken(LowerString(s)) == LowerNext(NextToken(s))
  {
    if IsLetter(s[0]) {
      WordNextLower(s);
    } else if IsDigit(s[0]) {
      NumberNextLower(s);
    } else {
      SymbolNextLower(s);
    }
  }

  lemma {:induction false} SymbolNextLower(s: string)
    requires s != [] && !IsLetter(s[0]) && !IsDigit(s[0])
    ensures NextToken(LowerString(s)) == LowerNext(NextToken(s))
  {
    var l := LowerString(s);
    assert l[0] == s[0];
    if |s| > 1 {
      assert l[1] == Lower(s[1]);
      LowerCharIs(s[1], '/');
    }
    if s[0] == ',' {
      assert l[1..] == LowerString(s[1..]);
      SpaceRunLower(s[1..]);
    }
  }

  lemma {:induction false} WordNextLower(s: string)
    requires s != [] && IsLetter(s[0])
    ensures NextToken(LowerString(s)) == LowerNext(NextToken(s))
  {
    var l := LowerString(s);
    var n := LetterRun(s);
    assert IsLetter(l[0]);
    LetterRunLower(s);
    assert l[..n] == LowerString(s[..n]);
  }

  lemma {:induction false} NumberNextLower(s: string)
    requires s != [] && IsDigit(s[0])
    ensures NextToken(LowerString(s)) == LowerNext(NextToken(s))
  {
    var l := LowerString(s);
    var n := DigitRun(s);
    assert l[0] == s[0];
    DigitRunLower(s);
    assert l[..n] == s[..n];
  }

  lemma LowerPrepend(t: Token, r: Result<seq<Token>>)
    ensures LowerResult(Prepend(t, r)) == Prepend(LowerToken(t), LowerResult(r))
  {
    if r.Success? {
      assert LowerTokens([t] + r.value) == [LowerToken(t)] + LowerTokens(r.value);
    }
  }

  /** Tokenizing the lower-cased text gives the lower-cased tokens: letter
      case changes nothing but the text of words. */
  lemma {:induction false} TokenizeLower(s: string)
    ensures Tokenize(LowerString(s)) == LowerResult(Tokenize(s))
    decreases |s|
  {
    if s == [] {
      assert LowerTokens([]) == [];
    } else {
      NextTokenLower(s);
      if NextToken(s).Some? {
        var (t, n) := NextToken(s).value;
        assert LowerString(s)[n..] == LowerString(s[n..]);
        TokenizeLower(s[n..]);
        LowerPrepend(t, Tokenize(s[n..]));
      }
    }
  }

  lemma LowerStringIdempotent(w: string)
    ensures LowerString(LowerString(w)) == LowerString(w)
  {
  }

  lemma LowerTokensSlice(ts: seq<Token>, k: nat)
    requires k <= |ts|
    ensures LowerTokens(ts)[k..] == LowerTokens(ts[k..])
  {
  }

  /** The text of joined token sequences is the joined text. */
  lemma {:induction false} UnlexAppend(a: seq<Token>, b: seq<Token>, spaced: bool)
    ensures Unlex(a + b, spaced) == Unlex(a, spaced) + Unlex(b, spaced)
    decreases |a|
  {
    if a != [] {
      UnlexAppend(a[1..], b, spaced);
      assert (a + b)[0] == a[0] && (a + b)[1..] == a[1..] + b;
      var head := Text(a[0], spaced);
      assert Unlex(a + b, spaced) == head + Unlex(a[1..] + b, spaced);
      assert Unlex(a, spaced) == head + Unlex(a[1..], spaced);
      var x, y := Unlex(a[1..], spaced), Unlex(b, spaced);
      assert head + (x + y) == (head + x) + y;
    } else {
      assert a + b == b && Unlex(a, spaced) == [];
    }
  }

  /** Two lexable token sequences stay lexable when joined, as long as the
      tokens that meet may follow each other. */
  lemma LexableAppend(a: seq<Token>, b: seq<Token>)
    requires Lexable(a) && Lexable(b)
    requires a != [] && b != [] ==> Follows(a[|a| - 1], b[0])
    ensures Lexable(a + b)
  {
    var ab := a + b;
    forall i | 0 <= i < |ab| - 1
      ensures Follows(ab[i], ab[i + 1])
    {
      if i < |a| - 1 {
        assert ab[i] == a[i] && ab[i + 1] == a[i + 1];
      } else if i == |a| - 1 {
        assert ab[i] == a[i] && ab[i + 1] == b[0];
      } else {
        assert ab[i] == b[i - |a|] && ab[i + 1] == b[i - |a| + 1];
      }
    }
  }
}
