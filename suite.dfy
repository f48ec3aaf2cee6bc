/** How the parser's test suite writes expressions: keywords and keys in
    either case, constraint lists with or without a space after the comma.

    An expression is assembled segment by segment (`BareWritten`,
    `BracketedWritten`), keeping three views of the text in step: the
    characters, the tokens they read as, and the segments those tokens form.
    The general results of the lexer, the segment parser and the tree builder
    then give its parse (`Accepted`) or its rejection (`Rejected`,
    `BodyRejected`, `QuoteRejected`, `SegmentsRejected`). */
module SuiteText {
  import opened Wrappers
  import opened Ast
  import opened Lexer
  import opened SegmentParser
  import opened PathParser

  /* ---------------------------------------------------------------------
     How the suite spells keywords and keys.
     --------------------------------------------------------------------- */

  /** The letter case a keyword is written in. */
  datatype Case = Lower | Capital

  /** ASCII upper-casing of one character. */
  function Upper(c: char): char {
    if 'a' <= c <= 'z' then (c as int - 32) as char else c
  }

  /** A word with its first letter in upper case. */
  function Capitalize(w: string): string {
    if w == [] then [] else [Upper(w[0])] + w[1..]
  }

  /** The keyword as written in case `c`: `task` or `Task`. */
  function Spelled(k: Keyword, c: Case): string {
    match c
    case Lower => KeywordText(k)
    case Capital => Capitalize(KeywordText(k))
  }

  /** The constraint key as written: `id`, `Id` or `ID`. */
  datatype Key = LowerId | CapitalId | UpperId

  function KeyText(key: Key): string {
    match key
    case LowerId => "id"
    case CapitalId => "Id"
    case UpperId => "ID"
  }

  /** Every spelling is a word of letters that names its keyword. */
  lemma SpelledOk(k: Keyword, c: Case)
    ensures var w := Spelled(k, c);
      && TokenOk(Word(w)) && w != [] && LowerString(w) == KeywordText(k)
  {
    match c
    case Lower =>
      KeywordTextOk(k);
    case Capital =>
      CapitalOk(k);
  }

  lemma CapitalOk(k: Keyword)
    ensures var w := Spelled(k, Capital);
      && TokenOk(Word(w)) && w != [] && LowerString(w) == KeywordText(k)
  {
    var w := KeywordText(k);
    KeywordTextOk(k);
    var u := Capitalize(w);
    assert w == LowerString(w);
    forall i | 0 <= i < |u|
      ensures LowerString(u)[i] == w[i] && IsLetter(u[i])
    {
      if i > 0 {
        assert u[i] == w[i] && w[i] == Lexer.Lower(w[i]);
      } else {
        assert w[0] == Lexer.Lower(w[0]) && IsLetter(w[0]);
      }
    }
  }

  /** Every key spelling is a word of letters that lower-cases to `id`. */
  lemma KeyTextOk(key: Key)
    ensures TokenOk(Word(KeyText(key))) && LowerString(KeyText(key)) == "id"
  {
  }

  /** One constraint as written: its key and its value. */
  datatype Item = Item(key: Key, value: nat)

  function AxisText(axis: Axis): string {
    if axis == Direct then "/" else "//"
  }

  /** The text of a constraint list after its `[`, closing `]` included. */
  function ItemsText(items: seq<Item>, spaced: bool): string
    decreases |items|
  {
    if items == [] then "]"
    else
      KeyText(items[0].key) + "=" + NatToString(items[0].value)
      + (if |items| == 1 then "]" else (if spaced then ", " else ",") + ItemsText(items[1..], spaced))
  }

  /** The tokens of a constraint list after its `[`, keys as written. */
  function ItemsTokens(items: seq<Item>): seq<Token>
    decreases |items|
  {
    if items == [] then [RBracket]
    else
      [Word(KeyText(items[0].key)), Equals, Number(items[0].value)]
      + (if |items| == 1 then [RBracket] else [Comma] + ItemsTokens(items[1..]))
  }

  /** The constraints a list of items stands for. */
  function Ids(items: seq<Item>): seq<Constraint>
    decreases |items|
  {
    if items == [] then [] else [Id(items[0].value)] + Ids(items[1..])
  }

  /* ---------------------------------------------------------------------
     Text, tokens and segments in step.
     --------------------------------------------------------------------- */

  /** `ts` starts with a separator. */
  predicate StartsSeparated(ts: seq<Token>) {
    ts != [] && (ts[0] == Slash || ts[0] == DoubleSlash)
  }

  /** `ts` is empty or ends with a word or `]`. */
  predicate EndsClosed(ts: seq<Token>) {
    ts != [] ==> ts[|ts| - 1] == RBracket || ts[|ts| - 1].Word?
  }

  /** A word or `]` may be followed by a separator. */
  lemma {:induction false} ClosedThenSeparated(a: seq<Token>, b: seq<Token>)
    requires EndsClosed(a) && StartsSeparated(b)
    ensures a != [] ==> Follows(a[|a| - 1], b[0])
    ensures EndsClosed(b) ==> EndsClosed(a + b)
  {
    assert b != [] ==> (a + b)[|a + b| - 1] == b[|b| - 1];
  }

  /** `p` is the single segment `seg`, written as the tokens `ts`. */
  predicate Writes(p: string, ts: seq<Token>, seg: Segment, spaced: bool) {
    && Lexable(ts) && Unlex(ts, spaced) == p && LowerTokens(ts) == SegmentTokens(seg)
    && StartsSeparated(ts) && EndsClosed(ts)
  }

  /** `s` is the text of the tokens `ts`, which read as the segments `segs`. */
  predicate Reads(s: string, ts: seq<Token>, segs: seq<Segment>, spaced: bool) {
    && Lexable(ts) && Unlex(ts, spaced) == s && LowerTokens(ts) == SegmentsTokens(segs)
    && EndsClosed(ts)
  }

  lemma LowerTokensAppend(a: seq<Token>, b: seq<Token>)
    ensures LowerTokens(a + b) == LowerTokens(a) + LowerTokens(b)
  {
  }

  lemma UnlexOne(t: Token, spaced: bool)
    ensures Unlex([t], spaced) == Text(t, spaced)
  {
    assert [t][1..] == [];
  }

  lemma UnlexThree(a: Token, b: Token, c: Token, spaced: bool)
    ensures Unlex([a, b], spaced) == Text(a, spaced) + Text(b, spaced)
    ensures Unlex([a, b, c], spaced) == Text(a, spaced) + Text(b, spaced) + Text(c, spaced)
  {
    UnlexOne(a, spaced);
    UnlexOne(b, spaced);
    UnlexOne(c, spaced);
    UnlexAppend([a], [b], spaced);
    assert [a] + [b] == [a, b];
    UnlexAppend([a, b], [c], spaced);
    assert [a, b] + [c] == [a, b, c];
  }

  /** One written constraint lower-cases to the canonical `id=` form. */
  lemma {:induction false} ItemLower(item: Item)
    ensures LowerTokens([Word(KeyText(item.key)), Equals, Number(item.value)])
         == [Word("id"), Equals, Number(item.value)]
  {
    var head := [Word(KeyText(item.key)), Equals, Number(item.value)];
    KeyTextOk(item.key);
    assert LowerTokens(head)[0] == Word(LowerString(KeyText(item.key)));
  }

  lemma {:induction false} ItemsLower(items: seq<Item>)
    ensures LowerTokens(ItemsTokens(items)) == BodyTokens(Ids(items))
    decreases |items|
  {
    if items != [] {
      var v := items[0].value;
      var head := [Word(KeyText(items[0].key)), Equals, Number(v)];
      var id := [Word("id"), Equals, Number(v)];
      ItemLower(items[0]);
      assert Ids(items) == [Id(v)] + Ids(items[1..]);
      if |items| == 1 {
        assert ItemsTokens(items) == head + [RBracket];
        LowerTokensAppend(head, [RBracket]);
        assert BodyTokens(Ids(items)) == id + [RBracket];
      } else {
        var rest := ItemsTokens(items[1..]);
        assert ItemsTokens(items) == head + ([Comma] + rest);
        ItemsLower(items[1..]);
        LowerTokensAppend([Comma], rest);
        LowerTokensAppend(head, [Comma] + rest);
        assert Ids(items)[1..] == Ids(items[1..]);
        assert BodyTokens(Ids(items)) == id + ([Comma] + BodyTokens(Ids(items[1..])));
      }
    }
  }

  lemma {:induction false} ItemsUnlex(items: seq<Item>, spaced: bool)
    ensures Unlex(ItemsTokens(items), spaced) == ItemsText(items, spaced)
    decreases |items|
  {
    if items != [] {
      var key := Word(KeyText(items[0].key));
      var head := [key, Equals, Number(items[0].value)];
      var tail := if |items| == 1 then [RBracket] else [Comma] + ItemsTokens(items[1..]);
      assert ItemsTokens(items) == head + tail;
      UnlexAppend(head, tail, spaced);
      UnlexThree(key, Equals, Number(items[0].value), spaced);
      if |items| > 1 {
        ItemsUnlex(items[1..], spaced);
        UnlexAppend([Comma], ItemsTokens(items[1..]), spaced);
      }
    }
  }

  lemma {:induction false} ItemsLexable(items: seq<Item>)
    ensures var ts := ItemsTokens(items);
      Lexable(ts) && ts != [] && (ts[0] == RBracket || ts[0].Word?) && ts[|ts| - 1] == RBracket
    decreases |items|
  {
    if items != [] {
      var head := [Word(KeyText(items[0].key)), Equals, Number(items[0].value)];
      KeyTextOk(items[0].key);
      if |items| == 1 {
        LexableAppend(head, [RBracket]);
      } else {
        ItemsLexable(items[1..]);
        LexableAppend([Comma], ItemsTokens(items[1..]));
        LexableAppend(head, [Comma] + ItemsTokens(items[1..]));
      }
      assert ItemsTokens(items) == head + (if |items| == 1 then [RBracket] else [Comma] + ItemsTokens(items[1..]));
    }
  }

  /** A separator and a keyword, written in either case, form one segment. */
  lemma BareWritten(axis: Axis, k: Keyword, c: Case, spaced: bool)
    ensures Writes(AxisText(axis) + Spelled(k, c), [AxisToken(axis), Word(Spelled(k, c))], Segment(axis, k, None), spaced)
  {
    var ts := [AxisToken(axis), Word(Spelled(k, c))];
    SpelledOk(k, c);
    UnlexThree(ts[0], ts[1], Slash, spaced);
    assert LowerTokens(ts)[1] == Word(LowerString(Spelled(k, c)));
  }

  /** A separator, a keyword in either case and an opening bracket
      lower-case to the canonical head of a bracketed segment. */
  lemma {:induction false} BracketHeadLower(axis: Axis, k: Keyword, c: Case)
    ensures LowerTokens([AxisToken(axis), Word(Spelled(k, c)), LBracket])
         == [AxisToken(axis), Word(KeywordText(k)), LBracket]
  {
    var head := [AxisToken(axis), Word(Spelled(k, c)), LBracket];
    SpelledOk(k, c);
    assert LowerTokens(head)[1] == Word(LowerString(Spelled(k, c)));
  }

  /** A separator, a keyword and an opening bracket. */
  lemma BracketHead(axis: Axis, k: Keyword, c: Case, spaced: bool)
    ensures var head := [AxisToken(axis), Word(Spelled(k, c)), LBracket];
      && Lexable(head) && Unlex(head, spaced) == AxisText(axis) + Spelled(k, c) + "["
      && LowerTokens(head) == [AxisToken(axis), Word(KeywordText(k)), LBracket]
  {
    var head := [AxisToken(axis), Word(Spelled(k, c)), LBracket];
    SpelledOk(k, c);
    assert LowerTokens(head)[1] == Word(LowerString(Spelled(k, c)));
    UnlexThree(head[0], head[1], head[2], spaced);
  }

  /** The tokens of a bracketed segment lex back to themselves and end
      with `]`. */
  lemma {:induction false} BracketedLexable(axis: Axis, k: Keyword, c: Case, items: seq<Item>)
    ensures var ts := [AxisToken(axis), Word(Spelled(k, c)), LBracket] + ItemsTokens(items);
      Lexable(ts) && ts[|ts| - 1] == RBracket
  {
    var head := [AxisToken(axis), Word(Spelled(k, c)), LBracket];
    BracketHead(axis, k, c, false);
    ItemsLexable(items);
    LexableAppend(head, ItemsTokens(items));
  }

  /** The text of a bracketed segment's tokens. */
  lemma {:induction false} BracketedUnlex(axis: Axis, k: Keyword, c: Case, items: seq<Item>, spaced: bool)
    ensures Unlex([AxisToken(axis), Word(Spelled(k, c)), LBracket] + ItemsTokens(items), spaced)
         == AxisText(axis) + Spelled(k, c) + ("[" + ItemsText(items, spaced))
  {
    var head := [AxisToken(axis), Word(Spelled(k, c)), LBracket];
    BracketHead(axis, k, c, spaced);
    ItemsUnlex(items, spaced);
    UnlexAppend(head, ItemsTokens(items), spaced);
    AppendAssoc(AxisText(axis) + Spelled(k, c), "[", ItemsText(items, spaced));
  }

  /** A bracketed segment's tokens lower-case to the canonical tokens of
      the segment. */
  lemma {:induction false} BracketedLower(axis: Axis, k: Keyword, c: Case, items: seq<Item>)
    ensures LowerTokens([AxisToken(axis), Word(Spelled(k, c)), LBracket] + ItemsTokens(items))
         == SegmentTokens(Segment(axis, k, Some(Ids(items))))
  {
    var head := [AxisToken(axis), Word(Spelled(k, c)), LBracket];
    var lead, body := [AxisToken(axis), Word(KeywordText(k))], BodyTokens(Ids(items));
    BracketHeadLower(axis, k, c);
    ItemsLower(items);
    LowerTokensAppend(head, ItemsTokens(items));
    assert SegmentTokens(Segment(axis, k, Some(Ids(items)))) == lead + ([LBracket] + body);
    AppendAssoc(lead, [LBracket], body);
    assert lead + [LBracket] == [AxisToken(axis), Word(KeywordText(k)), LBracket];
  }

  /** A separator, a keyword and a constraint list form one segment. */
  lemma BracketedWritten(axis: Axis, k: Keyword, c: Case, items: seq<Item>, spaced: bool)
    ensures Writes(AxisText(axis) + Spelled(k, c) + ("[" + ItemsText(items, spaced)),
                   [AxisToken(axis), Word(Spelled(k, c)), LBracket] + ItemsTokens(items),
                   Segment(axis, k, Some(Ids(items))), spaced)
  {
    BracketedLexable(axis, k, c, items);
    BracketedUnlex(axis, k, c, items, spaced);
    BracketedLower(axis, k, c, items);
  }

  /** One segment as the suite writes it: separator, keyword in some case,
      and an optional constraint list. */
  datatype Piece = Piece(axis: Axis, keyword: Keyword, spelling: Case, items: Option<seq<Item>>)

  function PieceText(p: Piece, spaced: bool): string {
    AxisText(p.axis) + Spelled(p.keyword, p.spelling)
    + (match p.items
       case None => ""
       case Some(its) => "[" + ItemsText(its, spaced))
  }

  function PieceTokens(p: Piece): seq<Token> {
    [AxisToken(p.axis), Word(Spelled(p.keyword, p.spelling))]
    + (match p.items
       case None => []
       case Some(its) => [LBracket] + ItemsTokens(its))
  }

  function PieceSegment(p: Piece): Segment {
    Segment(p.axis, p.keyword, match p.items case None => None case Some(its) => Some(Ids(its)))
  }

  /** The text of the first `n` pieces. */
  function TextUpTo(ps: seq<Piece>, n: nat, spaced: bool): string
    requires n <= |ps|
  {
    if n == 0 then "" else TextUpTo(ps, n - 1, spaced) + PieceText(ps[n - 1], spaced)
  }

  function TokensUpTo(ps: seq<Piece>, n: nat): seq<Token>
    requires n <= |ps|
  {
    if n == 0 then [] else TokensUpTo(ps, n - 1) + PieceTokens(ps[n - 1])
  }

  /** The segments of the first `n` pieces. */
  function SegmentsUpTo(ps: seq<Piece>, n: nat): seq<Segment>
    requires n <= |ps|
  {
    if n == 0 then [] else SegmentsUpTo(ps, n - 1) + [PieceSegment(ps[n - 1])]
  }

  /** A piece's tokens lex back to themselves, start with a separator and
      end with a word or `]`. */
  lemma {:induction false} PieceLexable(p: Piece)
    ensures Lexable(PieceTokens(p)) && StartsSeparated(PieceTokens(p)) && EndsClosed(PieceTokens(p))
  {
    if p.items.None? {
      BarePieceLexable(p);
    } else {
      BracketedPieceLexable(p);
    }
  }

  lemma {:induction false} BarePieceLexable(p: Piece)
    requires p.items.None?
    ensures Lexable(PieceTokens(p)) && StartsSeparated(PieceTokens(p)) && EndsClosed(PieceTokens(p))
  {
    var w := Spelled(p.keyword, p.spelling);
    assert PieceTokens(p) == [AxisToken(p.axis), Word(w)];
    BareWritten(p.axis, p.keyword, p.spelling, false);
  }

  lemma {:induction false} BracketedPieceLexable(p: Piece)
    requires p.items.Some?
    ensures Lexable(PieceTokens(p)) && StartsSeparated(PieceTokens(p)) && EndsClosed(PieceTokens(p))
  {
    var w, its := Spelled(p.keyword, p.spelling), p.items.value;
    assert PieceTokens(p) == [AxisToken(p.axis), Word(w), LBracket] + ItemsTokens(its) by {
      assert PieceTokens(p) == [AxisToken(p.axis), Word(w)] + ([LBracket] + ItemsTokens(its));
    }
    BracketedWritten(p.axis, p.keyword, p.spelling, its, false);
  }

  lemma {:induction false} BarePieceUnlex(p: Piece, spaced: bool)
    requires p.items.None?
    ensures Unlex(PieceTokens(p), spaced) == PieceText(p, spaced)
  {
    var w := Spelled(p.keyword, p.spelling);
    assert PieceTokens(p) == [AxisToken(p.axis), Word(w)];
    assert PieceText(p, spaced) == AxisText(p.axis) + w;
    BareWritten(p.axis, p.keyword, p.spelling, spaced);
  }

  lemma {:induction false} BracketedPieceUnlex(p: Piece, spaced: bool)
    requires p.items.Some?
    ensures Unlex(PieceTokens(p), spaced) == PieceText(p, spaced)
  {
    var w, its := Spelled(p.keyword, p.spelling), p.items.value;
    assert PieceTokens(p) == [AxisToken(p.axis), Word(w), LBracket] + ItemsTokens(its) by {
      assert PieceTokens(p) == [AxisToken(p.axis), Word(w)] + ([LBracket] + ItemsTokens(its));
    }
    assert PieceText(p, spaced) == AxisText(p.axis) + w + ("[" + ItemsText(its, spaced));
    BracketedWritten(p.axis, p.keyword, p.spelling, its, spaced);
  }

  /** A piece's tokens have the piece's text. */
  lemma {:induction false} PieceUnlex(p: Piece, spaced: bool)
    ensures Unlex(PieceTokens(p), spaced) == PieceText(p, spaced)
  {
    if p.items.None? {
      BarePieceUnlex(p, spaced);
    } else {
      BracketedPieceUnlex(p, spaced);
    }
  }

  /** A piece's tokens lower-case to the canonical tokens of its segment. */
  lemma {:induction false} PieceLower(p: Piece)
    ensures LowerTokens(PieceTokens(p)) == SegmentTokens(PieceSegment(p))
  {
    var w := Spelled(p.keyword, p.spelling);
    match p.items
    case None =>
      BareWritten(p.axis, p.keyword, p.spelling, false);
      assert PieceTokens(p) == [AxisToken(p.axis), Word(w)];
    case Some(its) =>
      BracketedWritten(p.axis, p.keyword, p.spelling, its, false);
      assert PieceTokens(p) == [AxisToken(p.axis), Word(w), LBracket] + ItemsTokens(its);
      assert PieceSegment(p) == Segment(p.axis, p.keyword, Some(Ids(its)));
  }

  lemma {:induction false} PiecesLexable(ps: seq<Piece>, n: nat)
    requires n <= |ps|
    ensures Lexable(TokensUpTo(ps, n)) && EndsClosed(TokensUpTo(ps, n))
  {
    if n > 0 {
      var a, b := TokensUpTo(ps, n - 1), PieceTokens(ps[n - 1]);
      PiecesLexable(ps, n - 1);
      PieceLexable(ps[n - 1]);
      ClosedThenSeparated(a, b);
      LexableAppend(a, b);
      assert TokensUpTo(ps, n) == a + b;
    }
  }

  lemma {:induction false} PiecesUnlex(ps: seq<Piece>, n: nat, spaced: bool)
    requires n <= |ps|
    ensures Unlex(TokensUpTo(ps, n), spaced) == TextUpTo(ps, n, spaced)
  {
    if n > 0 {
      var p := ps[n - 1];
      PiecesUnlex(ps, n - 1, spaced);
      PieceUnlex(p, spaced);
      UnlexJoin(TokensUpTo(ps, n - 1), PieceTokens(p), TextUpTo(ps, n - 1, spaced), PieceText(p, spaced), spaced);
    }
  }

  lemma {:induction false} UnlexJoin(a: seq<Token>, b: seq<Token>, s: string, t: string, spaced: bool)
    requires Unlex(a, spaced) == s && Unlex(b, spaced) == t
    ensures Unlex(a + b, spaced) == s + t
  {
    UnlexAppend(a, b, spaced);
  }

  lemma {:induction false} PiecesLower(ps: seq<Piece>, n: nat)
    requires n <= |ps|
    ensures LowerTokens(TokensUpTo(ps, n)) == SegmentsTokens(SegmentsUpTo(ps, n))
  {
    if n > 0 {
      PiecesLower(ps, n - 1);
      PieceLower(ps[n - 1]);
      LowerTokensAppend(TokensUpTo(ps, n - 1), PieceTokens(ps[n - 1]));
      SegmentsTokensSnoc(SegmentsUpTo(ps, n - 1), PieceSegment(ps[n - 1]));
    }
  }

  /** Any run of pieces reads as the segments it was written from. */
  lemma PiecesRead(ps: seq<Piece>, n: nat, spaced: bool)
    requires n <= |ps|
    ensures Reads(TextUpTo(ps, n, spaced), TokensUpTo(ps, n), SegmentsUpTo(ps, n), spaced)
  {
    PiecesLexable(ps, n);
    PiecesUnlex(ps, n, spaced);
    PiecesLower(ps, n);
  }

  /* ---------------------------------------------------------------------
     From a readable expression to its parse.
     --------------------------------------------------------------------- */

  /** Pieces whose segments are those of the well-formed tree `n`, with or
      without `[]` on its unconstrained nodes, parse to `n`. */
  lemma Accepted(ps: seq<Piece>, spaced: bool, n: Node, brackets: bool)
    requires WellFormed(n) && SegmentsUpTo(ps, |ps|) == Flatten(n, brackets)
    ensures Parse(TextUpTo(ps, |ps|, spaced)) == Success(n)
  {
    PiecesRead(ps, |ps|, spaced);
    BuildFlatten(n, -1, brackets);
    LexUnlex(TokensUpTo(ps, |ps|), spaced);
    ParseSegmentsIff(TokensUpTo(ps, |ps|), SegmentsUpTo(ps, |ps|));
  }

  /** Segment `i` breaks a path rule: a leaf with something after it or with
      brackets, `//` before a structural node, or a rank that does not grow. */
  predicate Breaks(segs: seq<Segment>, i: nat) {
    && i < |segs|
    && ( || (segs[i].keyword.IsLeaf() && (i + 1 < |segs| || segs[i].constraints.Some?))
         || (!segs[i].keyword.IsLeaf() && segs[i].axis == All)
         || (i + 1 < |segs| && segs[i].keyword.Rank() >= segs[i + 1].keyword.Rank()))
  }

  /** No pieces at all, or pieces with a segment that breaks a path rule,
      are rejected. */
  lemma Rejected(ps: seq<Piece>, spaced: bool, i: nat)
    requires ps == [] || Breaks(SegmentsUpTo(ps, |ps|), i)
    ensures Parse(TextUpTo(ps, |ps|, spaced)).Failure?
  {
    var ts, segs := TokensUpTo(ps, |ps|), SegmentsUpTo(ps, |ps|);
    PiecesRead(ps, |ps|, spaced);
    LexUnlex(ts, spaced);
    ParseSegmentsIff(ts, segs);
    if segs != [] {
      BuildSucceedsIff(segs, -1);
    }
  }

  /** `ts` is lexable from index `i` on; stated one token at a time. */
  predicate LexableFrom(ts: seq<Token>, i: nat)
    decreases |ts| - i
  {
    i >= |ts| || (TokenOk(ts[i]) && (i + 1 < |ts| ==> Follows(ts[i], ts[i + 1])) && LexableFrom(ts, i + 1))
  }

  lemma {:induction false} LexableFromSound(ts: seq<Token>, i: nat)
    requires LexableFrom(ts, i)
    ensures forall j :: i <= j < |ts| ==> TokenOk(ts[j])
    ensures forall j :: i <= j < |ts| - 1 ==> Follows(ts[j], ts[j + 1])
    decreases |ts| - i
  {
    if i < |ts| {
      LexableFromSound(ts, i + 1);
    }
  }

  /** An expression whose tokens the segment parser refuses is rejected. */
  lemma SegmentsRejected(s: string, ts: seq<Token>, spaced: bool)
    requires LexableFrom(ts, 0) && Unlex(ts, spaced) == s
    requires ParseSegments(ts).Failure?
    ensures Parse(s).Failure?
  {
    LexableFromSound(ts, 0);
    LexUnlex(ts, spaced);
  }

  /** Tokens that read as segments, then tokens the segment parser refuses:
      the whole is refused too. */
  lemma {:induction false} SegmentsThenRefused(pre: seq<Token>, segs: seq<Segment>, tail: seq<Token>)
    requires LowerTokens(pre) == SegmentsTokens(segs)
    requires StartsSeparated(tail) && ParseSegments(tail).Failure?
    ensures ParseSegments(pre + tail).Failure?
  {
    ParseSegmentsLower(pre + tail);
    LowerTokensAppend(pre, tail);
    assert LowerTokens(tail)[0] == tail[0];
    ParseSegmentsAppend(segs, LowerTokens(tail));
    ParseSegmentsLower(tail);
  }

  /** Any run of written segments, then `/`, a keyword and `[`, then
      constraint tokens the constraint parser refuses: the expression is
      rejected. */
  lemma BodyRejected(s: string, ps: seq<Piece>, n: nat, k: Keyword, c: Case, word: string,
                     body: seq<Token>, text: string, spaced: bool)
    requires n <= |ps|
    requires Spelled(k, c) == word && Unlex(body, spaced) == text
    requires s == TextUpTo(ps, n, spaced) + ("/" + word + "[" + text)
    requires LexableFrom(body, 0) && ParseConstraintList(body).Failure?
    ensures Parse(s).Failure?
  {
    var pre := TokensUpTo(ps, n);
    var tail := [Slash, Word(word), LBracket] + body;
    PiecesRead(ps, n, spaced);
    BracketBodyLexes(k, c, word, body, text, spaced);
    ClosedThenSeparated(pre, tail);
    LexableAppend(pre, tail);
    UnlexJoin(pre, tail, TextUpTo(ps, n, spaced), "/" + word + "[" + text, spaced);
    LexUnlex(pre + tail, spaced);
    BracketBodyFails(k, c, body);
    SegmentsThenRefused(pre, SegmentsUpTo(ps, n), tail);
  }

  /** `/`, a keyword, `[` and lexable tokens: their text, and they start a segment. */
  lemma {:induction false} BracketBodyLexes(k: Keyword, c: Case, word: string, body: seq<Token>, text: string, spaced: bool)
    requires Spelled(k, c) == word && Unlex(body, spaced) == text
    requires LexableFrom(body, 0)
    ensures var ts := [Slash, Word(word), LBracket] + body;
      && Lexable(ts) && StartsSeparated(ts)
      && Unlex(ts, spaced) == "/" + word + "[" + text
  {
    var head := [Slash, Word(word), LBracket];
    BracketHead(Direct, k, c, spaced);
    LexableFromSound(body, 0);
    LexableAppend(head, body);
    UnlexJoin(head, body, "/" + word + "[", text, spaced);
  }

  /** `/`, a keyword and `[` before tokens the constraint parser refuses do
      not form segments. */
  lemma {:induction false} BracketBodyFails(k: Keyword, c: Case, body: seq<Token>)
    requires ParseConstraintList(body).Failure?
    ensures ParseSegments([Slash, Word(Spelled(k, c)), LBracket] + body).Failure?
  {
    var ts := [Slash, Word(Spelled(k, c)), LBracket] + body;
    SpelledOk(k, c);
    assert ts[3..] == body;
  }

  /** The tokens of `/`, a keyword, `[`, a key and `=`. */
  lemma KeyHead(k: Keyword, c: Case, key: Key, spaced: bool)
    ensures var ts := [Slash, Word(Spelled(k, c)), LBracket, Word(KeyText(key)), Equals];
      Lexable(ts) && Unlex(ts, spaced) == "/" + Spelled(k, c) + "[" + KeyText(key) + "="
  {
    var head := [Slash, Word(Spelled(k, c)), LBracket];
    var tail := [Word(KeyText(key)), Equals];
    BracketHead(Direct, k, c, spaced);
    KeyTextOk(key);
    UnlexThree(tail[0], tail[1], Slash, spaced);
    LexableAppend(head, tail);
    UnlexAppend(head, tail, spaced);
    assert head + tail == [Slash, Word(Spelled(k, c)), LBracket, Word(KeyText(key)), Equals];
    AppendAssoc("/" + Spelled(k, c) + "[", KeyText(key), "=");
  }

  /** The text of any lexable tokens, then a character no token starts with
      (and that does not run into the last token): the expression is
      rejected. */
  lemma QuoteRejected(s: string, ts: seq<Token>, r: string, spaced: bool)
    requires Lexable(ts) && s == Unlex(ts, spaced) + r
    requires r != [] && NextToken(r).None?
    requires ts != [] ==> CanFollow(ts[|ts| - 1], r[0])
    ensures Parse(s).Failure?
  {
    assert Tokenize(r) == Failure;
    TokenizeAppend(ts, r, spaced);
  }
}
