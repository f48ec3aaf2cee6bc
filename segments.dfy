/** Groups the token stream into path segments: a separator, a node keyword
    and, optionally, a bracketed constraint list. */
module SegmentParser {
  import opened Wrappers
  import opened Ast
  import opened Lexer

  /** The keyword in lower case, as the canonical printer writes it. */
  function KeywordText(k: Keyword): (w: string)
    ensures w == LowerString(w)
  {
    match k
    case ProjectKw => "project"
    case TargetKw => "target"
    case TaskKw => "task"
    case MessageKw => "message"
    case WarningKw => "warning"
    case ErrorKw => "error"
  }

  /** The keyword a word names, ignoring case. */
  function KeywordOf(w: string): (r: Option<Keyword>)
    ensures forall k: Keyword :: r == Some(k) <==> LowerString(w) == KeywordText(k)
  {
    var l := LowerString(w);
    if l == "project" then Some(ProjectKw)
    else if l == "target" then Some(TargetKw)
    else if l == "task" then Some(TaskKw)
    else if l == "message" then Some(MessageKw)
    else if l == "warning" then Some(WarningKw)
    else if l == "error" then Some(ErrorKw)
    else None
  }

  /** The constraint key: `id` in any letter case. */
  predicate IsIdKey(w: string) {
    LowerString(w) == "id"
  }

  /** One path segment as written. `constraints` is `None` when no brackets
      follow the keyword and `Some(cs)` when `[...]` does. */
  datatype Segment = Segment(axis: Axis, keyword: Keyword, constraints: Option<seq<Constraint>>)

  function PrependConstraint(c: Constraint, r: Result<(seq<Constraint>, seq<Token>)>): Result<(seq<Constraint>, seq<Token>)> {
    match r
    case Success((cs, rest)) => Success(([c] + cs, rest))
    case Failure => Failure
  }

  /** `Constraint (',' Constraint)* ']'` with `Constraint := Key '=' Number`;
      returns the constraints in source order and the tokens after `]`. */
  function ParseConstraintItems(ts: seq<Token>): (r: Result<(seq<Constraint>, seq<Token>)>)
    ensures r.Success? ==> |r.value.1| < |ts| && r.value.1 == ts[|ts| - |r.value.1|..]
    decreases |ts|
  {
    if |ts| >= 4 && ts[0].Word? && IsIdKey(ts[0].text) && ts[1] == Equals && ts[2].Number? then
      var c := Id(ts[2].value);
      if ts[3] == RBracket then Success(([c], ts[4..]))
      else if ts[3] == Comma then PrependConstraint(c, ParseConstraintItems(ts[4..]))
      else Failure
    else Failure
  }

  /** The body of a constraint list, after its `[`: either `]` at once (an
      empty list) or one or more constraints closed by `]`. */
  function ParseConstraintList(ts: seq<Token>): (r: Result<(seq<Constraint>, seq<Token>)>)
    ensures r.Success? ==> |r.value.1| < |ts| && r.value.1 == ts[|ts| - |r.value.1|..]
  {
    if |ts| > 0 && ts[0] == RBracket then Success(([], ts[1..]))
    else ParseConstraintItems(ts)
  }

  function PrependSegment(s: Segment, r: Result<seq<Segment>>): Result<seq<Segment>> {
    match r
    case Success(segs) => Success([s] + segs)
    case Failure => Failure
  }

  /** The segments of a token stream; fails unless every segment starts with
      `/` or `//` followed by a known keyword and its optional, well-formed
      constraint list. */
  function ParseSegments(ts: seq<Token>): Result<seq<Segment>>
    decreases |ts|
  {
    if ts == [] then Success([])
    else if |ts| >= 2 && (ts[0] == Slash || ts[0] == DoubleSlash) && ts[1].Word? && KeywordOf(ts[1].text).Some? then
      var axis := if ts[0] == Slash then Direct else All;
      var k := KeywordOf(ts[1].text).value;
      if |ts| > 2 && ts[2] == LBracket then
        match ParseConstraintList(ts[3..])
        case Failure => Failure
        case Success((cs, rest)) => PrependSegment(Segment(axis, k, Some(cs)), ParseSegments(rest))
      else PrependSegment(Segment(axis, k, None), ParseSegments(ts[2..]))
    else Failure
  }

  /* ---------------------------------------------------------------------
     The canonical token form of segments, and the parser against it.
     --------------------------------------------------------------------- */

  /** The tokens of a constraint list after its `[`, key in lower case. */
  function BodyTokens(cs: seq<Constraint>): seq<Token>
    decreases |cs|
  {
    if cs == [] then [RBracket]
    else
      [Word("id"), Equals, Number(cs[0].value)]
      + (if |cs| == 1 then [RBracket] else [Comma] + BodyTokens(cs[1..]))
  }

  /** The token that opens a segment on `axis`: `/` or `//`. */
  function AxisToken(axis: Axis): Token {
    if axis == Direct then Slash else DoubleSlash
  }

  /** The canonical tokens of one segment: lower-case keyword and keys. */
  function SegmentTokens(seg: Segment): seq<Token> {
    [AxisToken(seg.axis), Word(KeywordText(seg.keyword))]
    + (match seg.constraints
       case None => []
       case Some(cs) => [LBracket] + BodyTokens(cs))
  }

  function SegmentsTokens(segs: seq<Segment>): seq<Token>
    decreases |segs|
  {
    if segs == [] then [] else SegmentTokens(segs[0]) + SegmentsTokens(segs[1..])
  }

  /** One canonical constraint, `id = v`, then the token after it. */
  lemma ParseItemsStep(v: nat, sep: Token, rest: seq<Token>)
    ensures var ts := [Word("id"), Equals, Number(v), sep] + rest;
      ParseConstraintItems(ts)
      == if sep == RBracket then Success(([Id(v)], rest))
         else if sep == Comma then PrependConstraint(Id(v), ParseConstraintItems(rest))
         else Failure
  {
    var ts := [Word("id"), Equals, Number(v), sep] + rest;
    assert IsIdKey("id");
    assert ts[4..] == rest;
  }

  /** Parsing the canonical tokens of a constraint list gives back the list,
      in order and with repeats, and leaves what follows untouched. */
  lemma {:induction false} ParseBodyTokens(cs: seq<Constraint>, rest: seq<Token>)
    ensures ParseConstraintList(BodyTokens(cs) + rest) == Success((cs, rest))
    decreases |cs|
  {
    if cs == [] {
      assert (BodyTokens(cs) + rest)[1..] == rest;
    } else if |cs| == 1 {
      ParseBodyLast(cs[0].value, rest);
      assert cs == [Id(cs[0].value)];
    } else {
      ParseBodyTokens(cs[1..], rest);
      ParseBodyMore(cs, rest);
    }
  }

  /** A list of one constraint and its `]`. */
  lemma {:induction false} ParseBodyLast(v: nat, rest: seq<Token>)
    ensures ParseConstraintList(BodyTokens([Id(v)]) + rest) == Success(([Id(v)], rest))
  {
    assert BodyTokens([Id(v)]) + rest == [Word("id"), Equals, Number(v), RBracket] + rest;
    ParseItemsStep(v, RBracket, rest);
  }

  /** A constraint and a comma before a list the parser reads. */
  lemma {:induction false} ParseBodyMore(cs: seq<Constraint>, rest: seq<Token>)
    requires |cs| > 1
    requires ParseConstraintList(BodyTokens(cs[1..]) + rest) == Success((cs[1..], rest))
    ensures ParseConstraintList(BodyTokens(cs) + rest) == Success((cs, rest))
  {
    var v := cs[0].value;
    var more := BodyTokens(cs[1..]) + rest;
    assert BodyTokens(cs) + rest == [Word("id"), Equals, Number(v), Comma] + more;
    ParseItemsStep(v, Comma, more);
    assert more[0] == Word("id");
    assert ParseConstraintList(more) == ParseConstraintItems(more);
    assert [Id(v)] + cs[1..] == cs;
  }

  lemma LowerTokensSplit(ts: seq<Token>, k: nat)
    requires k <= |ts|
    ensures LowerTokens(ts) == LowerTokens(ts[..k]) + LowerTokens(ts[k..])
  {
  }

  /** The first constraint of a list, lower-cased: `id`, `=`, its value and the token after. */
  lemma ItemHead(ts: seq<Token>)
    requires |ts| >= 4 && ts[0].Word? && IsIdKey(ts[0].text) && ts[1] == Equals && ts[2].Number?
    ensures LowerTokens(ts) == [Word("id"), Equals, Number(ts[2].value), LowerToken(ts[3])] + LowerTokens(ts[4..])
  {
    assert LowerTokens(ts[..4]) == [Word("id"), Equals, Number(ts[2].value), LowerToken(ts[3])] by {
      assert LowerToken(ts[0]) == Word("id");
    }
    LowerTokensSplit(ts, 4);
  }

  lemma {:induction false} ParseConstraintItemsSound(ts: seq<Token>)
    requires ParseConstraintItems(ts).Success?
    ensures var (cs, rest) := ParseConstraintItems(ts).value;
      cs != [] && LowerTokens(ts) == BodyTokens(cs) + LowerTokens(rest)
    decreases |ts|
  {
    var v := ts[2].value;
    if ts[3] == Comma {
      ParseConstraintItemsSound(ts[4..]);
      var (cs, rest) := ParseConstraintItems(ts[4..]).value;
      assert ParseConstraintItems(ts) == Success(([Id(v)] + cs, rest));
      ItemsLowerMore(ts, cs, rest);
    } else {
      assert ParseConstraintItems(ts) == Success(([Id(v)], ts[4..]));
      ItemsLowerLast(ts);
    }
  }

  /** One constraint closed by `]`, lower-cased. */
  lemma {:induction false} ItemsLowerLast(ts: seq<Token>)
    requires |ts| >= 4 && ts[0].Word? && IsIdKey(ts[0].text) && ts[1] == Equals && ts[2].Number?
    requires ts[3] == RBracket
    ensures LowerTokens(ts) == BodyTokens([Id(ts[2].value)]) + LowerTokens(ts[4..])
  {
    ItemHead(ts);
  }

  /** One constraint and a comma before a lower-cased list. */
  lemma {:induction false} ItemsLowerMore(ts: seq<Token>, cs: seq<Constraint>, rest: seq<Token>)
    requires |ts| >= 4 && ts[0].Word? && IsIdKey(ts[0].text) && ts[1] == Equals && ts[2].Number?
    requires ts[3] == Comma && cs != []
    requires LowerTokens(ts[4..]) == BodyTokens(cs) + LowerTokens(rest)
    ensures LowerTokens(ts) == BodyTokens([Id(ts[2].value)] + cs) + LowerTokens(rest)
  {
    var head := [Word("id"), Equals, Number(ts[2].value), Comma];
    ItemHead(ts);
    BodyTokensCons(ts[2].value, cs);
    AppendAssoc(head, BodyTokens(cs), LowerTokens(rest));
  }

  /** The canonical tokens of a constraint followed by a non-empty list. */
  lemma {:induction false} BodyTokensCons(v: nat, cs: seq<Constraint>)
    requires cs != []
    ensures BodyTokens([Id(v)] + cs) == [Word("id"), Equals, Number(v), Comma] + BodyTokens(cs)
  {
    assert ([Id(v)] + cs)[1..] == cs;
  }

  /** Whatever a constraint list parses to, the tokens it consumed are, up to
      letter case, exactly the canonical tokens of the resulting list. */
  lemma ParseConstraintListSound(ts: seq<Token>)
    requires ParseConstraintList(ts).Success?
    ensures var (cs, rest) := ParseConstraintList(ts).value;
      LowerTokens(ts) == BodyTokens(cs) + LowerTokens(rest)
  {
    if |ts| > 0 && ts[0] == RBracket {
      LowerTokensSplit(ts, 1);
    } else {
      ParseConstraintItemsSound(ts);
    }
  }

  function LowerRest(r: Result<(seq<Constraint>, seq<Token>)>): Result<(seq<Constraint>, seq<Token>)> {
    match r
    case Success((cs, rest)) => Success((cs, LowerTokens(rest)))
    case Failure => Failure
  }

  lemma {:induction false} ParseConstraintItemsLower(ts: seq<Token>)
    ensures ParseConstraintItems(LowerTokens(ts)) == LowerRest(ParseConstraintItems(ts))
    decreases |ts|
  {
    var lts := LowerTokens(ts);
    if |ts| >= 4 {
      assert lts[0] == LowerToken(ts[0]) && lts[1] == LowerToken(ts[1]);
      assert lts[2] == LowerToken(ts[2]) && lts[3] == LowerToken(ts[3]);
      if ts[0].Word? {
        LowerStringIdempotent(ts[0].text);
        assert lts[0] == Word(LowerString(ts[0].text));
      }
      LowerTokensSlice(ts, 4);
      ParseConstraintItemsLower(ts[4..]);
    }
  }

  lemma ParseConstraintListLower(ts: seq<Token>)
    ensures ParseConstraintList(LowerTokens(ts)) == LowerRest(ParseConstraintList(ts))
  {
    if |ts| > 0 {
      assert LowerTokens(ts)[0] == LowerToken(ts[0]);
      LowerTokensSlice(ts, 1);
    }
    ParseConstraintItemsLower(ts);
  }

  /** Lower-casing keeps the separator and the keyword a segment starts with. */
  lemma LeadLower(ts: seq<Token>)
    requires |ts| >= 2
    ensures var lts := LowerTokens(ts);
      && lts[0] == LowerToken(ts[0]) && (lts[0] == Slash <==> ts[0] == Slash)
      && (lts[0] == DoubleSlash <==> ts[0] == DoubleSlash)
      && (lts[1].Word? <==> ts[1].Word?)
      && (ts[1].Word? ==> KeywordOf(lts[1].text) == KeywordOf(ts[1].text))
      && (|ts| > 2 ==> (lts[2] == LBracket <==> ts[2] == LBracket))
  {
    var lts := LowerTokens(ts);
    assert lts[1] == LowerToken(ts[1]);
    if ts[1].Word? {
      LowerStringIdempotent(ts[1].text);
    }
    if |ts| > 2 {
      assert lts[2] == LowerToken(ts[2]);
    }
  }

  /** The segment parser compares words only after lower-casing them. */
  lemma {:induction false} ParseSegmentsLower(ts: seq<Token>)
    ensures ParseSegments(LowerTokens(ts)) == ParseSegments(ts)
    decreases |ts|
  {
    var lts := LowerTokens(ts);
    if |ts| >= 2 {
      LeadLower(ts);
      if (ts[0] == Slash || ts[0] == DoubleSlash) && ts[1].Word? && KeywordOf(ts[1].text).Some? {
        if |ts| > 2 && ts[2] == LBracket {
          LowerTokensSlice(ts, 3);
          ParseConstraintListLower(ts[3..]);
          if ParseConstraintList(ts[3..]).Success? {
            ParseSegmentsLower(ParseConstraintList(ts[3..]).value.1);
          }
        } else {
          LowerTokensSlice(ts, 2);
          ParseSegmentsLower(ts[2..]);
        }
      }
    } else if |ts| == 1 {
      assert lts[0] == LowerToken(ts[0]);
    }
  }

  lemma KeywordRoundTrip(k: Keyword)
    ensures KeywordOf(KeywordText(k)) == Some(k)
  {
  }

  lemma ParseSegmentTokensStep(seg: Segment, more: seq<Token>)
    requires more == [] || more[0] == Slash || more[0] == DoubleSlash
    ensures ParseSegments(SegmentTokens(seg) + more) == PrependSegment(seg, ParseSegments(more))
  {
    if seg.constraints.None? {
      BareSegmentStep(seg, more);
    } else {
      BracketedSegmentStep(seg, more);
    }
  }

  lemma {:induction false} BareSegmentStep(seg: Segment, more: seq<Token>)
    requires seg.constraints.None?
    requires more == [] || more[0] == Slash || more[0] == DoubleSlash
    ensures ParseSegments(SegmentTokens(seg) + more) == PrependSegment(seg, ParseSegments(more))
  {
    var sep := AxisToken(seg.axis);
    var ts := [sep, Word(KeywordText(seg.keyword))] + more;
    assert SegmentTokens(seg) == [sep, Word(KeywordText(seg.keyword))];
    KeywordRoundTrip(seg.keyword);
    assert !(|ts| > 2 && ts[2] == LBracket);
    assert ts[2..] == more;
  }

  lemma {:induction false} BracketedSegmentStep(seg: Segment, more: seq<Token>)
    requires seg.constraints.Some?
    ensures ParseSegments(SegmentTokens(seg) + more) == PrependSegment(seg, ParseSegments(more))
  {
    var sep := AxisToken(seg.axis);
    var cs := seg.constraints.value;
    var head := [sep, Word(KeywordText(seg.keyword)), LBracket];
    var ts := head + (BodyTokens(cs) + more);
    BracketedSegmentTokens(seg.axis, seg.keyword, cs);
    AppendAssoc(head, BodyTokens(cs), more);
    KeywordRoundTrip(seg.keyword);
    assert ts[3..] == BodyTokens(cs) + more;
    ParseBodyTokens(cs, more);
  }

  lemma {:induction false} SegmentsTokensSnoc(segs: seq<Segment>, seg: Segment)
    ensures SegmentsTokens(segs + [seg]) == SegmentsTokens(segs) + SegmentTokens(seg)
    decreases |segs|
  {
    if segs != [] {
      SegmentsTokensSnoc(segs[1..], seg);
      assert (segs + [seg])[1..] == segs[1..] + [seg];
    } else {
      assert segs + [seg] == [seg];
    }
  }

  /** The canonical tokens of segments start with the first one's separator. */
  lemma {:induction false} SegmentsTokensStart(segs: seq<Segment>)
    ensures var ts := SegmentsTokens(segs);
      ts == [] || ts[0] == Slash || ts[0] == DoubleSlash
  {
    if segs != [] {
      assert SegmentsTokens(segs)[0] == SegmentTokens(segs[0])[0];
    }
  }

  /** Parsing the canonical tokens of any segment sequence gives it back. */
  lemma {:induction false} ParseSegmentsTokens(segs: seq<Segment>)
    ensures ParseSegments(SegmentsTokens(segs)) == Success(segs)
    decreases |segs|
  {
    if segs != [] {
      var more := SegmentsTokens(segs[1..]);
      ParseSegmentsTokens(segs[1..]);
      SegmentsTokensStart(segs[1..]);
      ConsParse(segs, more);
      assert SegmentsTokens(segs) == SegmentTokens(segs[0]) + more;
    }
  }

  /** The canonical tokens of a first segment before tokens that parse as
      the remaining ones. */
  lemma {:induction false} ConsParse(segs: seq<Segment>, more: seq<Token>)
    requires segs != []
    requires more == [] || more[0] == Slash || more[0] == DoubleSlash
    requires ParseSegments(more) == Success(segs[1..])
    ensures ParseSegments(SegmentTokens(segs[0]) + more) == Success(segs)
  {
    ParseSegmentTokensStep(segs[0], more);
    assert [segs[0]] + segs[1..] == segs;
  }

  function PrependSegments(segs: seq<Segment>, r: Result<seq<Segment>>): Result<seq<Segment>> {
    match r
    case Success(more) => Success(segs + more)
    case Failure => Failure
  }

  lemma PrependSegmentsCons(segs: seq<Segment>, r: Result<seq<Segment>>)
    requires segs != []
    ensures PrependSegments(segs, r) == PrependSegment(segs[0], PrependSegments(segs[1..], r))
  {
    if r.Success? {
      assert [segs[0]] + (segs[1..] + r.value) == segs + r.value;
    }
  }

  /** The canonical tokens of segments before tokens that start a new
      segment: the parse is those segments followed by the parse of the
      rest, and fails exactly when the rest fails. */
  lemma {:induction false} ParseSegmentsAppend(segs: seq<Segment>, more: seq<Token>)
    requires more == [] || more[0] == Slash || more[0] == DoubleSlash
    ensures ParseSegments(SegmentsTokens(segs) + more) == PrependSegments(segs, ParseSegments(more))
    decreases |segs|
  {
    if segs == [] {
      assert SegmentsTokens(segs) + more == more;
      assert ParseSegments(more).Success? ==> segs + ParseSegments(more).value == ParseSegments(more).value;
    } else {
      var mid := SegmentsTokens(segs[1..]) + more;
      SegmentsTokensStart(segs[1..]);
      ParseSegmentsAppend(segs[1..], more);
      ParseSegmentTokensStep(segs[0], mid);
      AppendAssoc(SegmentTokens(segs[0]), SegmentsTokens(segs[1..]), more);
      PrependSegmentsCons(segs, ParseSegments(more));
    }
  }

  lemma ConsumedPrefix(ts: seq<Token>, n: nat, body: seq<Token>)
    requires 3 <= n <= |ts|
    requires LowerTokens(ts[3..]) == body + LowerTokens(ts[n..])
    ensures LowerTokens(ts[..n]) == LowerTokens(ts[..3]) + body
  {
    LowerTokensSplit(ts[3..], n - 3);
    assert ts[3..][..n - 3] == ts[3..n] && ts[3..][n - 3..] == ts[n..];
    LowerTokensSplit(ts[..n], 3);
    assert ts[..n][..3] == ts[..3] && ts[..n][3..] == ts[3..n];
    var a, c := LowerTokens(ts[3..n]), LowerTokens(ts[n..]);
    assert |a| == |body|;
    assert a == (a + c)[..|a|] == (body + c)[..|body|] == body;
  }

  /** The first segment of a token stream that parses: how it was read. */
  lemma ParseSegmentsCases(ts: seq<Token>)
    requires ts != [] && ParseSegments(ts).Success?
    ensures |ts| >= 2 && (ts[0] == Slash || ts[0] == DoubleSlash) && ts[1].Word? && KeywordOf(ts[1].text).Some?
    ensures var axis := if ts[0] == Slash then Direct else All;
      var k := KeywordOf(ts[1].text).value;
      if |ts| > 2 && ts[2] == LBracket then
        && ParseConstraintList(ts[3..]).Success?
        && ParseSegments(ts)
           == PrependSegment(Segment(axis, k, Some(ParseConstraintList(ts[3..]).value.0)),
                             ParseSegments(ParseConstraintList(ts[3..]).value.1))
      else ParseSegments(ts) == PrependSegment(Segment(axis, k, None), ParseSegments(ts[2..]))
  {
  }

  lemma LowerLead(ts: seq<Token>, w: string, n: nat)
    requires 2 <= n <= 3 && n <= |ts| && (ts[0] == Slash || ts[0] == DoubleSlash)
    requires LowerToken(ts[1]) == Word(w) && (n == 3 ==> ts[2] == LBracket)
    ensures LowerTokens(ts[..n]) == [ts[0], Word(w)] + (if n == 3 then [LBracket] else [])
  {
    var l := LowerTokens(ts[..n]);
    assert l[0] == LowerToken(ts[0]) && l[1] == LowerToken(ts[1]);
    if n == 3 {
      assert l[2] == LowerToken(ts[2]);
    }
  }

  /** The tokens of a segment with a constraint list, up to letter case. */
  lemma BracketedHead(ts: seq<Token>, axis: Axis, k: Keyword) returns (n: nat)
    requires |ts| > 2 && ts[0] == AxisToken(axis)
    requires LowerToken(ts[1]) == Word(KeywordText(k)) && ts[2] == LBracket
    requires ParseConstraintList(ts[3..]).Success?
    ensures var (cs, rest) := ParseConstraintList(ts[3..]).value;
      && 3 < n <= |ts| && ts[n..] == rest
      && LowerTokens(ts[..n]) == SegmentTokens(Segment(axis, k, Some(cs)))
  {
    var (cs, rest) := ParseConstraintList(ts[3..]).value;
    ParseConstraintListSound(ts[3..]);
    n := |ts| - |rest|;
    assert ts[n..] == rest;
    ConsumedPrefix(ts, n, BodyTokens(cs));
    LowerLead(ts, KeywordText(k), 3);
    BracketedSegmentTokens(axis, k, cs);
  }

  /** The canonical tokens of a bracketed segment: separator, keyword, `[`
      and the body. */
  lemma {:induction false} BracketedSegmentTokens(axis: Axis, k: Keyword, cs: seq<Constraint>)
    ensures SegmentTokens(Segment(axis, k, Some(cs)))
         == [AxisToken(axis), Word(KeywordText(k)), LBracket] + BodyTokens(cs)
  {
    var lead := [AxisToken(axis), Word(KeywordText(k))];
    AppendAssoc(lead, [LBracket], BodyTokens(cs));
    assert lead + [LBracket] == [lead[0], lead[1], LBracket];
  }

  lemma ParseSegmentsHead(ts: seq<Token>) returns (n: nat)
    requires ts != [] && ParseSegments(ts).Success?
    ensures var segs := ParseSegments(ts).value;
      && segs != [] && 0 < n <= |ts|
      && LowerTokens(ts[..n]) == SegmentTokens(segs[0])
      && ParseSegments(ts[n..]) == Success(segs[1..])
  {
    ParseSegmentsCases(ts);
    var axis := if ts[0] == Slash then Direct else All;
    var k := KeywordOf(ts[1].text).value;
    assert LowerToken(ts[1]) == Word(KeywordText(k));
    var seg;
    if |ts| > 2 && ts[2] == LBracket {
      seg := Segment(axis, k, Some(ParseConstraintList(ts[3..]).value.0));
      n := BracketedHead(ts, axis, k);
    } else {
      n := 2;
      seg := Segment(axis, k, None);
      LowerLead(ts, KeywordText(k), 2);
    }
    assert ParseSegments(ts) == PrependSegment(seg, ParseSegments(ts[n..]));
  }

  /** Whatever a token sequence parses to, the tokens are, up to letter case,
      exactly the canonical tokens of the resulting segments. */
  lemma {:induction false} ParseSegmentsSound(ts: seq<Token>)
    requires ParseSegments(ts).Success?
    ensures LowerTokens(ts) == SegmentsTokens(ParseSegments(ts).value)
    decreases |ts|
  {
    if ts != [] {
      var n := ParseSegmentsHead(ts);
      ParseSegmentsSound(ts[n..]);
      LowerTokensSplit(ts, n);
    }
  }

  /** The segment parser accepts a token sequence exactly when its
      lower-cased form is the canonical token form of some segments, and then
      returns those segments. */
  lemma ParseSegmentsIff(ts: seq<Token>, segs: seq<Segment>)
    ensures ParseSegments(ts) == Success(segs) <==> LowerTokens(ts) == SegmentsTokens(segs)
  {
    if ParseSegments(ts) == Success(segs) {
      ParseSegmentsSound(ts);
    }
    if LowerTokens(ts) == SegmentsTokens(segs) {
      ParseSegmentsLower(ts);
      ParseSegmentsTokens(segs);
    }
  }

  lemma {:induction false} BodyTokensLexable(cs: seq<Constraint>)
    ensures var ts := BodyTokens(cs);
      Lexable(ts) && ts != [] && (ts[0] == RBracket || ts[0].Word?) && ts[|ts| - 1] == RBracket
    decreases |cs|
  {
    if cs != [] {
      var head := [Word("id"), Equals, Number(cs[0].value)];
      if |cs| == 1 {
        LexableAppend(head, [RBracket]);
      } else {
        BodyTokensLexable(cs[1..]);
        LexableAppend([Comma], BodyTokens(cs[1..]));
        LexableAppend(head, [Comma] + BodyTokens(cs[1..]));
        assert BodyTokens(cs) == head + ([Comma] + BodyTokens(cs[1..]));
      }
    }
  }

  lemma KeywordTextOk(k: Keyword)
    ensures TokenOk(Word(KeywordText(k)))
  {
  }

  lemma SegmentTokensLexable(seg: Segment)
    ensures var ts := SegmentTokens(seg);
      && Lexable(ts) && |ts| >= 2
      && (ts[0] == Slash || ts[0] == DoubleSlash)
      && (ts[|ts| - 1] == RBracket || ts[|ts| - 1].Word?)
  {
    var lead := [AxisToken(seg.axis), Word(KeywordText(seg.keyword))];
    KeywordTextOk(seg.keyword);
    match seg.constraints
    case None =>
      assert SegmentTokens(seg) == lead + [];
    case Some(cs) =>
      BodyTokensLexable(cs);
      LexableAppend([LBracket], BodyTokens(cs));
      LexableAppend(lead, [LBracket] + BodyTokens(cs));
      assert SegmentTokens(seg) == lead + ([LBracket] + BodyTokens(cs));
  }

  /** The canonical tokens of any segments can be written out as text and
      read back unchanged. */
  lemma {:induction false} SegmentsTokensLexable(segs: seq<Segment>)
    ensures Lexable(SegmentsTokens(segs))
    ensures segs != [] ==> var ts := SegmentsTokens(segs); ts != [] && (ts[0] == Slash || ts[0] == DoubleSlash)
    decreases |segs|
  {
    if segs != [] {
      SegmentTokensLexable(segs[0]);
      SegmentsTokensLexable(segs[1..]);
      LexableAppend(SegmentTokens(segs[0]), SegmentsTokens(segs[1..]));
    }
  }
}
