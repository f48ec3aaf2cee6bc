/** The entry point `Parser.Parse`: tokens, then segments, then the tree. */
module PathParser {
  import opened Wrappers
  import opened Ast
  import opened Lexer
  import opened SegmentParser

  /** The constraints a segment contributes: none when it has no brackets. */
  function ConstraintsOf(seg: Segment): seq<Constraint> {
    match seg.constraints
    case None => []
    case Some(cs) => cs
  }

  function StructuralNode(k: Keyword, child: Option<Node>, cs: seq<Constraint>): (n: Node)
    requires !k.IsLeaf()
    ensures !n.IsLeaf() && n.Rank() == k.Rank() && n.child == child && n.constraints == cs
  {
    match k
    case ProjectKw => Project(child, cs)
    case TargetKw => Target(child, cs)
    case TaskKw => Task(child, cs)
  }

  function LeafNode(k: Keyword, axis: Axis): (n: Node)
    requires k.IsLeaf()
    ensures n.IsLeaf() && n.axis == axis
  {
    match k
    case MessageKw => Message(axis)
    case WarningKw => Warning(axis)
    case ErrorKw => Error(axis)
  }

  function PrependParent(k: Keyword, cs: seq<Constraint>, child: Result<Node>): Result<Node>
    requires !k.IsLeaf()
  {
    match child
    case Success(c) => Success(StructuralNode(k, Some(c), cs))
    case Failure => Failure
  }

  /** Builds the tree of a non-empty segment sequence whose first segment
      sits under a parent of rank `above`; each later segment becomes the
      child of the one before it. */
  function BuildFrom(segs: seq<Segment>, above: int): Result<Node>
    requires segs != []
    decreases |segs|
  {
    var seg := segs[0];
    var k := seg.keyword;
    if k.Rank() <= above then Failure                       // repeated or out-of-order node
    else if k.IsLeaf() then
      if |segs| > 1 then Failure                            // content after a leaf
      else if seg.constraints.Some? then Failure            // brackets on a leaf
      else Success(LeafNode(k, seg.axis))
    else if seg.axis == All then Failure                    // `//` before a structural node
    else if |segs| == 1 then Success(StructuralNode(k, None, ConstraintsOf(seg)))
    else PrependParent(k, ConstraintsOf(seg), BuildFrom(segs[1..], k.Rank()))
  }

  /** The tree of a whole expression: at least one segment is required. */
  function Build(segs: seq<Segment>): Result<Node> {
    if segs == [] then Failure else BuildFrom(segs, -1)
  }

  /** `Parser.Parse`: the tree of a query expression, or `Failure` where the
      original throws `ParseException`. */
  function Parse(s: string): Result<Node> {
    match Tokenize(s)
    case Failure => Failure
    case Success(ts) =>
      match ParseSegments(ts)
      case Failure => Failure
      case Success(segs) => Build(segs)
  }

  /* ---------------------------------------------------------------------
     Which segment sequences make a tree.
     --------------------------------------------------------------------- */

  /** The rules a path obeys, stated per segment: ranks strictly increase
      from `above` on, only the last segment may be a leaf, a leaf has no
      brackets and a structural segment is not preceded by `//`. */
  ghost predicate ValidChain(segs: seq<Segment>, above: int) {
    && segs != []
    && segs[0].keyword.Rank() > above
    && (forall i :: 0 <= i < |segs| - 1 ==> segs[i].keyword.Rank() < segs[i + 1].keyword.Rank())
    && (forall i :: 0 <= i < |segs| - 1 ==> !segs[i].keyword.IsLeaf())
    && (forall i :: 0 <= i < |segs| ==>
          if segs[i].keyword.IsLeaf() then segs[i].constraints.None? else segs[i].axis == Direct)
  }

  lemma ValidChainTail(segs: seq<Segment>, above: int)
    requires |segs| > 1
    ensures ValidChain(segs, above) <==> ValidChain(segs[1..], segs[0].keyword.Rank()) && ValidChain([segs[0]] + [segs[1]], above)
  {
    var t := segs[1..];
    if ValidChain(t, segs[0].keyword.Rank()) && ValidChain([segs[0]] + [segs[1]], above) {
      forall i | 0 <= i < |segs| - 1 ensures segs[i].keyword.Rank() < segs[i + 1].keyword.Rank() {
        if i > 0 {
          assert segs[i] == t[i - 1] && segs[i + 1] == t[i];
        }
      }
      forall i | 0 <= i < |segs|
        ensures if segs[i].keyword.IsLeaf() then segs[i].constraints.None? else segs[i].axis == Direct
      {
        if i > 0 {
          assert segs[i] == t[i - 1];
        }
      }
    }
  }

  /** Building succeeds exactly on the segment sequences that obey the path rules. */
  lemma {:induction false} BuildSucceedsIff(segs: seq<Segment>, above: int)
    requires segs != []
    ensures BuildFrom(segs, above).Success? <==> ValidChain(segs, above)
    decreases |segs|
  {
    if |segs| > 1 {
      ValidChainTail(segs, above);
      BuildSucceedsIff(segs[1..], segs[0].keyword.Rank());
    }
  }

  /* ---------------------------------------------------------------------
     Trees back to segments.
     --------------------------------------------------------------------- */

  /** The segments of a tree from the root down. `brackets` writes `[]` on a
      structural node without constraints; otherwise such a node has none. */
  function Flatten(n: Node, brackets: bool): (segs: seq<Segment>)
    ensures segs != []
    decreases n
  {
    if n.IsLeaf() then [Segment(n.axis, n.Kind(), None)]
    else
      var cs := if n.constraints == [] && !brackets then None else Some(n.constraints);
      [Segment(Direct, n.Kind(), cs)] + (if n.child.Some? then Flatten(n.child.value, brackets) else [])
  }

  /** A segment with omitted brackets on a structural keyword written as `[]`. */
  function Canonical(seg: Segment): Segment {
    if seg.keyword.IsLeaf() then seg else seg.(constraints := Some(ConstraintsOf(seg)))
  }

  function Canonicals(segs: seq<Segment>): (r: seq<Segment>)
    ensures |r| == |segs|
  {
    seq(|segs|, i requires 0 <= i < |segs| => Canonical(segs[i]))
  }

  /** A built tree is well formed, and flattening it gives back the segments
      it was built from, with omitted brackets written as `[]`. */
  lemma {:induction false} BuildSound(segs: seq<Segment>, above: int)
    requires segs != [] && BuildFrom(segs, above).Success?
    ensures var n := BuildFrom(segs, above).value;
      WellFormedAbove(n, above) && Flatten(n, true) == Canonicals(segs)
    decreases |segs|
  {
    var n := BuildFrom(segs, above).value;
    var seg := segs[0];
    if !seg.keyword.IsLeaf() && |segs| > 1 {
      BuildSound(segs[1..], seg.keyword.Rank());
      assert Canonicals(segs) == [Canonical(seg)] + Canonicals(segs[1..]);
    }
  }

  /** Every well-formed tree is built back from its own segments, whichever
      way empty constraint lists are written. */
  lemma {:induction false} BuildFlatten(n: Node, above: int, brackets: bool)
    requires WellFormedAbove(n, above)
    ensures BuildFrom(Flatten(n, brackets), above) == Success(n)
    decreases n
  {
    var segs := Flatten(n, brackets);
    if !n.IsLeaf() && n.child.Some? {
      BuildFlatten(n.child.value, n.Rank(), brackets);
      assert segs[1..] == Flatten(n.child.value, brackets);
    }
  }

  /** Different trees have different segments. */
  lemma {:induction false} FlattenInjective(m: Node, n: Node)
    requires Flatten(m, true) == Flatten(n, true)
    ensures m == n
    decreases n
  {
    var fm, fn := Flatten(m, true), Flatten(n, true);
    assert fm[0] == fn[0];
    if !n.IsLeaf() && n.child.Some? {
      assert |fm| > 1;
      assert !m.IsLeaf() && m.child.Some?;
      assert fm[1..] == Flatten(m.child.value, true);
      assert fn[1..] == Flatten(n.child.value, true);
      FlattenInjective(m.child.value, n.child.value);
    } else if !n.IsLeaf() {
      assert |fm| == 1;
    }
  }

  /* ---------------------------------------------------------------------
     Properties of Parse.
     --------------------------------------------------------------------- */

  /** Every tree the parser returns is well formed: ranks strictly increase
      from the root down and a leaf ends the path. */
  lemma ParseWellFormed(s: string)
    requires Parse(s).Success?
    ensures WellFormed(Parse(s).value)
  {
    var segs := ParseSegments(Tokenize(s).value).value;
    BuildSound(segs, -1);
  }

  /** Letter case never matters: keywords and the `id` key match case-insensitively. */
  lemma ParseIgnoresCase(s: string)
    ensures Parse(LowerString(s)) == Parse(s)
  {
    TokenizeLower(s);
    if Tokenize(s).Success? {
      ParseSegmentsLower(Tokenize(s).value);
    }
  }

  /** How a tree is written out: empty constraint lists as `[]` or not at all,
      and a space after each comma of a constraint list or not. */
  datatype Layout = Layout(emptyBrackets: bool, spaceAfterComma: bool)

  /** The canonical text of a tree: lower-case keywords, `id` keys, decimal values. */
  function Render(n: Node, layout: Layout): string {
    Unlex(SegmentsTokens(Flatten(n, layout.emptyBrackets)), layout.spaceAfterComma)
  }

  /** Every well-formed tree is the parse of its own text, in every layout;
      so `[]` on a structural node means the same as no brackets at all. */
  lemma ParseRender(n: Node, layout: Layout)
    requires WellFormed(n)
    ensures Parse(Render(n, layout)) == Success(n)
  {
    var segs := Flatten(n, layout.emptyBrackets);
    SegmentsTokensLexable(segs);
    LexUnlex(SegmentsTokens(segs), layout.spaceAfterComma);
    ParseSegmentsTokens(segs);
    BuildFlatten(n, -1, layout.emptyBrackets);
  }

  /** Parse, stated declaratively: an expression parses to `n` exactly when
      it is a padded writing of lexable tokens that are (up to letter case)
      the canonical tokens of segments obeying the path rules, and those
      segments are `n`'s own. */
  lemma ParseCharacterization(s: string, n: Node)
    ensures Parse(s) == Success(n) <==>
      exists ts: seq<Token>, pads: seq<nat>, segs: seq<Segment> ::
        && Lexable(ts) && |pads| == |ts| && UnlexPadded(ts, pads) == s
        && LowerTokens(ts) == SegmentsTokens(segs)
        && ValidChain(segs, -1)
        && Canonicals(segs) == Flatten(n, true)
  {
    if Parse(s) == Success(n) {
      var ts, pads, segs := ParseWitness(s, n);
    }
    if exists ts: seq<Token>, pads: seq<nat>, segs: seq<Segment> ::
        && Lexable(ts) && |pads| == |ts| && UnlexPadded(ts, pads) == s
        && LowerTokens(ts) == SegmentsTokens(segs)
        && ValidChain(segs, -1)
        && Canonicals(segs) == Flatten(n, true)
    {
      var ts: seq<Token>, pads: seq<nat>, segs: seq<Segment> :|
        && Lexable(ts) && |pads| == |ts| && UnlexPadded(ts, pads) == s
        && LowerTokens(ts) == SegmentsTokens(segs)
        && ValidChain(segs, -1)
        && Canonicals(segs) == Flatten(n, true);
      ParseOfWitness(s, n, ts, pads, segs);
    }
  }

  /** How a parsed expression is written: the tokens, padding and segments
      behind it. */
  lemma ParseWitness(s: string, n: Node) returns (ts: seq<Token>, pads: seq<nat>, segs: seq<Segment>)
    requires Parse(s) == Success(n)
    ensures && Lexable(ts) && |pads| == |ts| && UnlexPadded(ts, pads) == s
            && LowerTokens(ts) == SegmentsTokens(segs)
            && ValidChain(segs, -1)
            && Canonicals(segs) == Flatten(n, true)
  {
    ts := Tokenize(s).value;
    pads := TokenizePads(s);
    segs := ParseSegments(ts).value;
    ParseSegmentsIff(ts, segs);
    BuildSucceedsIff(segs, -1);
    BuildSound(segs, -1);
  }

  /** An expression written from such tokens, padding and segments parses to `n`. */
  lemma ParseOfWitness(s: string, n: Node, ts: seq<Token>, pads: seq<nat>, segs: seq<Segment>)
    requires && Lexable(ts) && |pads| == |ts| && UnlexPadded(ts, pads) == s
             && LowerTokens(ts) == SegmentsTokens(segs)
             && ValidChain(segs, -1)
             && Canonicals(segs) == Flatten(n, true)
    ensures Parse(s) == Success(n)
  {
    TokenizePadded(ts, pads);
    ParseSegmentsIff(ts, segs);
    BuildSucceedsIff(segs, -1);
    var m := BuildFrom(segs, -1).value;
    BuildSound(segs, -1);
    BuildFlatten(m, -1, true);
    FlattenInjective(m, n);
  }
}
