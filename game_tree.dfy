/** The game tree of the checkers search: nodes carry a stored value, an
    optional evaluation rule and an ordered list of children, and a node's
    value is computed recursively from its children by the MIN, MAX,
    floor-average EXPECTIMAX or TERMINAL rule. Children may be shared between
    parents (the structure is acyclic, not necessarily a tree). */
module GameTree {
  import opened Outcomes

  datatype NodeType = Min | Max | Expectimax | Terminal

  /** The exceptions an evaluation raises: `min`/`max` of no values, and the
      integer division of an empty sum by zero children. */
  datatype EvalError = EmptyArgument | DivisionByZero

  /** The least element of a non-empty sequence. */
  function MinOf(s: seq<int>): (m: int)
    requires |s| > 0
    ensures m in s && forall x :: x in s ==> m <= x
  {
    if |s| == 1 then s[0]
    else
      var rest := MinOf(s[1..]);
      assert forall x :: x in s ==> x == s[0] || x in s[1..];
      if s[0] <= rest then s[0] else rest
  }

  /** The greatest element of a non-empty sequence. */
  function MaxOf(s: seq<int>): (m: int)
    requires |s| > 0
    ensures m in s && forall x :: x in s ==> x <= m
  {
    if |s| == 1 then s[0]
    else
      var rest := MaxOf(s[1..]);
      assert forall x :: x in s ==> x == s[0] || x in s[1..];
      if s[0] >= rest then s[0] else rest
  }

  function Sum(s: seq<int>): int
  {
    if |s| == 0 then 0 else s[0] + Sum(s[1..])
  }

  /** A lower bound of every element, times the length, bounds the sum. */
  lemma {:induction false} SumAtLeast(s: seq<int>, m: int)
    requires forall x :: x in s ==> m <= x
    ensures |s| * m <= Sum(s)
  {
    if |s| > 0 {
      assert s[0] in s;
      assert forall x :: x in s[1..] ==> x in s;
      SumAtLeast(s[1..], m);
      assert |s| * m == m + |s[1..]| * m;
    }
  }

  /** An upper bound of every element, times the length, bounds the sum. */
  lemma {:induction false} SumAtMost(s: seq<int>, m: int)
    requires forall x :: x in s ==> x <= m
    ensures Sum(s) <= |s| * m
  {
    if |s| > 0 {
      assert s[0] in s;
      assert forall x :: x in s[1..] ==> x in s;
      SumAtMost(s[1..], m);
      assert |s| * m == m + |s[1..]| * m;
    }
  }

  /** Multiplying by a natural number preserves order. */
  lemma {:induction false} MulMonotone(n: nat, a: int, b: int)
    requires a <= b
    ensures n * a <= n * b
  {
    if n > 0 {
      MulMonotone(n - 1, a, b);
      assert n * a == (n - 1) * a + a && n * b == (n - 1) * b + b;
    }
  }

  /** Floor division by a positive count keeps a value between two bounds
      of the dividend scaled by that count. */
  lemma DivBetween(sum: int, n: int, lo: int, hi: int)
    requires n > 0 && n * lo <= sum <= n * hi
    ensures lo <= sum / n <= hi
  {
    var q, r := sum / n, sum % n;
    assert sum == n * q + r && 0 <= r < n;
    if q < lo {
      assert n * (q + 1) == n * q + n;
      MulMonotone(n, q + 1, lo);
    }
    if q > hi {
      assert n * (hi + 1) == n * hi + n;
      MulMonotone(n, hi + 1, q);
    }
  }

  /** The floor average (Python's `//` by a positive count is Dafny's `/`)
      lies between the least and the greatest element. */
  lemma FloorAverageBetween(s: seq<int>)
    requires |s| > 0
    ensures MinOf(s) <= Sum(s) / |s| <= MaxOf(s)
  {
    SumAtLeast(s, MinOf(s));
    SumAtMost(s, MaxOf(s));
    DivBetween(Sum(s), |s|, MinOf(s), MaxOf(s));
  }

  /** The nodes reachable from any of the first `n` nodes of `cs`. */
  ghost function ReprOf(cs: seq<GraphNode>, n: nat): set<GraphNode>
    requires n <= |cs|
    reads cs`Repr
  {
    if n == 0 then {} else ReprOf(cs, n - 1) + cs[n - 1].Repr
  }

  class GraphNode {
    var value: int
    var spec: Option<NodeType>
    var children: seq<GraphNode>
    var level: int
    /** The node and everything reachable from it. */
    ghost var Repr: set<GraphNode>

    /** Every child lies in the node's representation, below the node: the
        node does not reach itself again, so the structure is acyclic. */
    ghost predicate Valid()
      reads this`Repr, Repr`Repr, Repr`children
      decreases Repr
    {
      this in Repr &&
      forall i :: 0 <= i < |children| ==>
        children[i] in Repr && children[i].Repr <= Repr && this !in children[i].Repr && children[i].Valid()
    }

    constructor (value: int := -1)
      ensures this.value == value && spec == None && children == [] && level == 1
      ensures Valid() && Repr == {this}
    {
      this.value := value;
      spec := None;
      children := [];
      level := 1;
      Repr := {this};
    }

    /** Appends `child` as the last child and puts it one level below this
        node; returns the node itself. */
    method AddChild(child: GraphNode) returns (self: GraphNode)
      requires Valid() && child.Valid() && this !in child.Repr
      modifies this`children, this`Repr, child`level
      ensures self == this && Valid() && Repr == old(Repr) + child.Repr
      ensures children == old(children) + [child]
      ensures child.level == level + 1 && level == old(level)
    {
      child.level := level + 1;
      children := children + [child];
      Repr := Repr + child.Repr;
      return this;
    }

    /** Appends `cs` in order, each one level below this node; returns the
        node itself. Each step sets the child's level and appends it, which
        is exactly what AddChild does, so the loop calls it. */
    method AddChildren(cs: seq<GraphNode>) returns (self: GraphNode)
      requires Valid()
      requires forall i :: 0 <= i < |cs| ==> cs[i].Valid() && this !in cs[i].Repr
      modifies this`children, this`Repr, cs`level
      ensures self == this && Valid() && Repr == old(Repr) + ReprOf(cs, |cs|)
      ensures children == old(children) + cs
      ensures level == old(level) && forall i :: 0 <= i < |cs| ==> cs[i].level == level + 1
    {
      for i := 0 to |cs|
        invariant Valid() && level == old(level)
        invariant Repr == old(Repr) + ReprOf(cs, i)
        invariant children == old(children) + cs[..i]
        invariant forall j :: 0 <= j < i ==> cs[j].level == level + 1
      {
        var _ := AddChild(cs[i]);
      }
      return this;
    }

    /** Stores the evaluation rule; returns the node itself. */
    method SetSpec(spec: NodeType) returns (self: GraphNode)
      modifies this`spec
      ensures self == this && this.spec == Some(spec)
    {
      this.spec := Some(spec);
      return this;
    }

    /** The values of the first k children, evaluated in order; the first
        child whose evaluation raises makes the whole sequence raise. */
    function ChildValues(k: nat): (r: Result<seq<int>, EvalError>)
      requires Valid() && k <= |children|
      reads Repr`Repr, Repr`children, Repr`spec, Repr`value
      decreases Repr, 0, k
      ensures r.Ok? <==> forall i :: 0 <= i < k ==> children[i].GetValue().Ok?
      ensures r.Ok? ==> |r.value| == k && forall i :: 0 <= i < k ==> r.value[i] == children[i].GetValue().value
    {
      if k == 0 then Ok([])
      else
        match ChildValues(k - 1)
        case Err(e) => Err(e)
        case Ok(vs) =>
          match children[k - 1].GetValue()
          case Err(e) => Err(e)
          case Ok(v) => Ok(vs + [v])
    }

    /** The node's value under its rule; a node without a rule is worth 0. */
    function GetValue(): (r: Result<int, EvalError>)
      requires Valid()
      reads Repr`Repr, Repr`children, Repr`spec, Repr`value
      decreases Repr, 1, 0
      ensures spec == Some(Terminal) ==> r == Ok(value)
      ensures spec == None ==> r == Ok(0)
      ensures children == [] && (spec == Some(Min) || spec == Some(Max)) ==> r == Err(EmptyArgument)
      ensures children == [] && spec == Some(Expectimax) ==> r == Err(DivisionByZero)
    {
      if spec.None? then Ok(0)
      else if spec.value == Terminal then Ok(value)
      else
        match ChildValues(|children|)
        case Err(e) => Err(e)
        case Ok(vs) =>
          if spec.value == Expectimax then
            if |vs| == 0 then Err(DivisionByZero) else Ok(Sum(vs) / |vs|)
          else if |vs| == 0 then Err(EmptyArgument)
          else if spec.value == Min then Ok(MinOf(vs))
          else Ok(MaxOf(vs))
    }
  }

  /** A MIN node's value is the value of one of its children and is no
      greater than any child's value. */
  lemma MinNodeIsLeastChild(n: GraphNode)
    requires n.Valid() && n.spec == Some(Min) && n.GetValue().Ok?
    ensures |n.children| > 0
    ensures exists i :: 0 <= i < |n.children| && n.children[i].GetValue() == n.GetValue()
    ensures forall i :: 0 <= i < |n.children| ==>
      n.children[i].GetValue().Ok? && n.GetValue().value <= n.children[i].GetValue().value
  {
    var vs := n.ChildValues(|n.children|).value;
    var i :| 0 <= i < |vs| && vs[i] == MinOf(vs);
    assert n.children[i].GetValue() == n.GetValue();
    forall j | 0 <= j < |n.children|
      ensures n.GetValue().value <= n.children[j].GetValue().value
    {
      assert vs[j] in vs;
    }
  }

  /** A MAX node's value is the value of one of its children and is no less
      than any child's value. */
  lemma MaxNodeIsGreatestChild(n: GraphNode)
    requires n.Valid() && n.spec == Some(Max) && n.GetValue().Ok?
    ensures |n.children| > 0
    ensures exists i :: 0 <= i < |n.children| && n.children[i].GetValue() == n.GetValue()
    ensures forall i :: 0 <= i < |n.children| ==>
      n.children[i].GetValue().Ok? && n.children[i].GetValue().value <= n.GetValue().value
  {
    var vs := n.ChildValues(|n.children|).value;
    var i :| 0 <= i < |vs| && vs[i] == MaxOf(vs);
    assert n.children[i].GetValue() == n.GetValue();
    forall j | 0 <= j < |n.children|
      ensures n.children[j].GetValue().value <= n.GetValue().value
    {
      assert vs[j] in vs;
    }
  }

  /** An EXPECTIMAX node's value lies between the least and the greatest of
      its children's values. */
  lemma ExpectimaxNodeBetweenChildren(n: GraphNode)
    requires n.Valid() && n.spec == Some(Expectimax) && n.GetValue().Ok?
    ensures |n.children| > 0
    ensures exists i :: 0 <= i < |n.children| && n.children[i].GetValue().Ok? && n.children[i].GetValue().value <= n.GetValue().value
    ensures exists i :: 0 <= i < |n.children| && n.children[i].GetValue().Ok? && n.GetValue().value <= n.children[i].GetValue().value
  {
    var vs := n.ChildValues(|n.children|).value;
    FloorAverageBetween(vs);
    var lo :| 0 <= lo < |vs| && vs[lo] == MinOf(vs);
    var hi :| 0 <= hi < |vs| && vs[hi] == MaxOf(vs);
    assert n.children[lo].GetValue().value <= n.GetValue().value;
    assert n.GetValue().value <= n.children[hi].GetValue().value;
  }

  /** When the values of the first k children raise, they raise the error
      of one of those children. */
  lemma {:induction false} ChildValuesFailure(n: GraphNode, k: nat)
    requires n.Valid() && k <= |n.children| && n.ChildValues(k).Err?
    ensures exists i :: 0 <= i < k && n.children[i].GetValue() == Err(n.ChildValues(k).error)
  {
    if n.ChildValues(k - 1).Err? {
      ChildValuesFailure(n, k - 1);
      var i :| 0 <= i < k - 1 && n.children[i].GetValue() == Err(n.ChildValues(k - 1).error);
      assert n.ChildValues(k).error == n.ChildValues(k - 1).error;
      assert 0 <= i < k && n.children[i].GetValue() == Err(n.ChildValues(k).error);
    } else {
      assert n.children[k - 1].GetValue() == Err(n.ChildValues(k).error);
    }
  }

  /** A failing evaluation of a MIN, MAX or EXPECTIMAX node with children is
      the failure of one of its children. */
  lemma FailureComesFromChild(n: GraphNode)
    requires n.Valid() && n.children != [] && n.GetValue().Err?
    ensures exists i :: 0 <= i < |n.children| && n.children[i].GetValue() == n.GetValue()
  {
    ChildValuesFailure(n, |n.children|);
  }
}
