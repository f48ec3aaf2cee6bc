/** The abstract syntax tree produced by the query parser
    (namespace Microsoft.Build.Logging.Query.Ast). */
module Ast {
  import opened Wrappers

  /** Whether a leaf matches only direct children of the enclosing node
      (`/`) or any descendant (`//`). */
  datatype Axis = Direct | All

  /** A constraint attached to a structural node; the only kind is `Id(value)`. */
  datatype Constraint = Id(value: nat)

  /** The closed set of node kinds, named by the keywords of the query
      language (matched case-insensitively). */
  datatype Keyword = ProjectKw | TargetKw | TaskKw | MessageKw | WarningKw | ErrorKw
  {
    predicate IsLeaf() {
      MessageKw? || WarningKw? || ErrorKw?
    }

    /** The nesting rank: Project < Target < Task < any leaf. */
    function Rank(): (r: nat)
      ensures r <= 3
      ensures r == 3 <==> IsLeaf()
    {
      match this
      case ProjectKw => 0
      case TargetKw => 1
      case TaskKw => 2
      case _ => 3
    }
  }

  /** Structural nodes (Project, Target, Task) own an optional child and an
      ordered list of constraints; leaves (Message, Warning, Error) carry an axis. */
  datatype Node =
    | Project(child: Option<Node>, constraints: seq<Constraint>)
    | Target(child: Option<Node>, constraints: seq<Constraint>)
    | Task(child: Option<Node>, constraints: seq<Constraint>)
    | Message(axis: Axis)
    | Warning(axis: Axis)
    | Error(axis: Axis)
  {
    /** The keyword that names the node. */
    function Kind(): Keyword {
      match this
      case Project(_, _) => ProjectKw
      case Target(_, _) => TargetKw
      case Task(_, _) => TaskKw
      case Message(_) => MessageKw
      case Warning(_) => WarningKw
      case Error(_) => ErrorKw
    }

    predicate IsLeaf()
      ensures IsLeaf() <==> Message? || Warning? || Error?
    {
      Kind().IsLeaf()
    }

    function Rank(): (r: nat)
      ensures r <= 3
      ensures r == 3 <==> IsLeaf()
    {
      Kind().Rank()
    }
  }

  /** `n` is a well-formed subtree under a parent of rank `above`: ranks
      strictly increase along the path, and a leaf ends the path. */
  ghost predicate WellFormedAbove(n: Node, above: int)
    decreases n
  {
    && n.Rank() > above
    && (!n.IsLeaf() && n.child.Some? ==> WellFormedAbove(n.child.value, n.Rank()))
  }

  /** The invariant every parsed tree satisfies. */
  ghost predicate WellFormed(n: Node) {
    WellFormedAbove(n, -1)
  }

  /** The number of nodes on the path from `n` down to its last descendant. */
  function Depth(n: Node): (d: nat)
    decreases n
  {
    if !n.IsLeaf() && n.child.Some? then 1 + Depth(n.child.value) else 1
  }

  /** A well-formed path holds at most one node of each rank, hence at most four nodes. */
  lemma {:induction false} WellFormedDepth(n: Node, above: int)
    requires WellFormedAbove(n, above)
    ensures Depth(n) <= 3 - above
    decreases n
  {
    if !n.IsLeaf() && n.child.Some? {
      WellFormedDepth(n.child.value, n.Rank());
    }
  }
}
