/** The schema type lattice: NULL at the bottom, STRING at the top, INTEGER below FLOAT and every other
    type between the two ends. */
module SchemaTypes {

  datatype DataType = STRING | INTEGER | FLOAT | BOOLEAN | TIMESTAMP | JSON | BYTES | NULL

  /** Python values as `isinstance` tells them apart; a bool is also an int, a datetime also a date. */
  datatype PyValue =
    PyNone | PyBool | PyInt | PyFloat | PyStr | PyBytes | PyDate | PyDatetime | PyDict | PyList | PyOther

  predicate IsInstance(value: PyValue, cls: PyValue) {
    value == cls || (value == PyBool && cls == PyInt) || (value == PyDatetime && cls == PyDate)
  }

  /** The `isinstance` checks in their order. */
  function InferPythonType(value: PyValue): DataType {
    if value == PyNone then NULL
    else if IsInstance(value, PyBool) then BOOLEAN
    else if IsInstance(value, PyInt) then INTEGER
    else if IsInstance(value, PyFloat) then FLOAT
    else if IsInstance(value, PyStr) then STRING
    else if IsInstance(value, PyBytes) then BYTES
    else if IsInstance(value, PyDatetime) || IsInstance(value, PyDate) then TIMESTAMP
    else if IsInstance(value, PyDict) || IsInstance(value, PyList) then JSON
    else STRING
  }

  /** The detection rules: the order of the checks gives a bool its own type although it is an int. */
  lemma DetectionRules(value: PyValue)
    ensures InferPythonType(value) == NULL <==> value == PyNone
    ensures InferPythonType(value) == BOOLEAN <==> value == PyBool
    ensures InferPythonType(value) == INTEGER <==> value == PyInt
    ensures InferPythonType(value) == FLOAT <==> value == PyFloat
    ensures InferPythonType(value) == STRING <==> value == PyStr || value == PyOther
    ensures InferPythonType(value) == BYTES <==> value == PyBytes
    ensures InferPythonType(value) == TIMESTAMP <==> value == PyDate || value == PyDatetime
    ensures InferPythonType(value) == JSON <==> value == PyDict || value == PyList
  {
  }

  function CanWiden(from: DataType, to: DataType): bool {
    if from == to then true
    else if from == NULL then true
    else if from == INTEGER && to == FLOAT then true
    else to == STRING
  }

  function WidenType(from: DataType, to: DataType): DataType {
    if from == to then from
    else if from == NULL then to
    else if to == NULL then from
    else if from == INTEGER && to == FLOAT then FLOAT
    else if from == FLOAT && to == INTEGER then FLOAT
    else STRING
  }

  /** The type part of `SchemaEvolution._merge_column`. */
  function MergeType(old': DataType, new': DataType): DataType {
    if old' == new' then old'
    else if CanWiden(old', new') then WidenType(old', new')
    else STRING
  }

  /** Height in the lattice; the longest chain is NULL, INTEGER, FLOAT, STRING. */
  function Rank(t: DataType): (rank: nat)
    ensures rank <= 3
  {
    if t == NULL then 0 else if t == STRING then 3 else if t == FLOAT then 2 else 1
  }

  /** `can_widen` is a partial order with least element NULL and greatest element STRING. */
  lemma CanWidenIsAnOrder(a: DataType, b: DataType, c: DataType)
    ensures CanWiden(a, a) && CanWiden(NULL, a) && CanWiden(a, STRING)
    ensures CanWiden(a, b) && CanWiden(b, a) ==> a == b
    ensures CanWiden(a, b) && CanWiden(b, c) ==> CanWiden(a, c)
    ensures CanWiden(a, b) && a != b ==> Rank(a) < Rank(b)
  {
  }

  /** `widen_type` is the least upper bound in that order. */
  lemma WidenIsJoin(a: DataType, b: DataType, upper: DataType)
    ensures CanWiden(a, WidenType(a, b)) && CanWiden(b, WidenType(a, b))
    ensures CanWiden(a, upper) && CanWiden(b, upper) ==> CanWiden(WidenType(a, b), upper)
  {
  }

  /** The pairs on which merging a column loses a join it could have had: a FLOAT column meeting an
      INTEGER, or a typed column other than STRING meeting a None. */
  predicate Clash(old': DataType, new': DataType) {
    (old' == FLOAT && new' == INTEGER) || (new' == NULL && old' != NULL && old' != STRING)
  }

  /** Merging follows the asymmetric `can_widen`: it reaches the join exactly off the clashing pairs, and
      STRING on them. */
  lemma MergeAgainstWiden(old': DataType, new': DataType)
    ensures MergeType(old', new') == if CanWiden(old', new') then new' else STRING
    ensures MergeType(old', new') == WidenType(old', new') <==> !Clash(old', new')
    ensures Clash(old', new') ==> MergeType(old', new') == STRING
    ensures CanWiden(old', MergeType(old', new'))
  {
  }

  // ---- one column over a stream of values -------------------------------------------------------

  /** The column type after the given value types arrive one by one and are merged. */
  function Streamed(types: seq<DataType>): DataType
    requires types != []
  {
    if |types| == 1 then types[0]
    else MergeType(Streamed(types[..|types| - 1]), types[|types| - 1])
  }

  /** The column type one inferrer reaches over the same values. */
  function Joined(types: seq<DataType>): DataType
    requires types != []
  {
    if |types| == 1 then types[0]
    else WidenType(Joined(types[..|types| - 1]), types[|types| - 1])
  }

  /** Some value clashes with the join of the values before it. */
  predicate HasClash(types: seq<DataType>) {
    exists k :: 1 <= k < |types| && Clash(Joined(types[..k]), types[k])
  }

  /** `Joined` is the least upper bound of the values, hence independent of their order. */
  lemma {:induction false} JoinedIsLeastUpperBound(types: seq<DataType>, upper: DataType)
    requires types != []
    ensures forall t :: t in types ==> CanWiden(t, Joined(types))
    ensures (forall t :: t in types ==> CanWiden(t, upper)) ==> CanWiden(Joined(types), upper)
    decreases |types|
  {
    if |types| > 1 {
      var front, last := types[..|types| - 1], types[|types| - 1];
      JoinedIsLeastUpperBound(front, upper);
      WidenIsJoin(Joined(front), last, upper);
      forall t | t in types
        ensures CanWiden(t, Joined(types))
      {
        assert types == front + [last];
        if t in front {
          CanWidenIsAnOrder(t, Joined(front), Joined(types));
        }
      }
    }
  }

  lemma JoinedOrderFree(left: seq<DataType>, right: seq<DataType>)
    requires left != [] && right != []
    requires forall t :: t in left <==> t in right
    ensures Joined(left) == Joined(right)
  {
    JoinedIsLeastUpperBound(left, Joined(right));
    JoinedIsLeastUpperBound(right, Joined(left));
    CanWidenIsAnOrder(Joined(left), Joined(right), STRING);
  }

  lemma ClashPrefix(types: seq<DataType>)
    requires |types| > 1
    ensures var n := |types| - 1;
      HasClash(types) <==> HasClash(types[..n]) || Clash(Joined(types[..n]), types[n])
  {
    var n := |types| - 1;
    var front := types[..n];
    if k :| 1 <= k < |types| && Clash(Joined(types[..k]), types[k]) {
      if k < n {
        assert front[..k] == types[..k];
        assert Clash(Joined(front[..k]), front[k]);
      }
    }
    if k :| 1 <= k < |front| && Clash(Joined(front[..k]), front[k]) {
      assert front[..k] == types[..k];
      assert Clash(Joined(types[..k]), types[k]);
    }
  }

  /** Streaming against one-shot inference for one column: the streamed type is the join or STRING, and
      it is the join exactly when no value clashed with the join before it, or the join is STRING. */
  lemma {:induction false} StreamedAgainstJoined(types: seq<DataType>)
    requires types != []
    ensures Streamed(types) == Joined(types) || Streamed(types) == STRING
    ensures Streamed(types) == Joined(types) <==> !HasClash(types) || Joined(types) == STRING
    ensures HasClash(types) ==> Streamed(types) == STRING
    decreases |types|
  {
    if |types| > 1 {
      var front, last := types[..|types| - 1], types[|types| - 1];
      StreamedAgainstJoined(front);
      ClashPrefix(types);
      MergeAgainstWiden(Streamed(front), last);
      MergeAgainstWiden(Joined(front), last);
    }
  }

  /** How often the streamed type changes. */
  function Rises(types: seq<DataType>): nat {
    if |types| <= 1 then 0
    else
      var front := types[..|types| - 1];
      Rises(front) + if Streamed(types) != Streamed(front) then 1 else 0
  }

  lemma {:induction false} RisesAtMostThrice(types: seq<DataType>)
    requires types != []
    ensures Rises(types) <= Rank(Streamed(types)) <= 3
    ensures CanWiden(types[0], Streamed(types))
    decreases |types|
  {
    if |types| > 1 {
      var front, last := types[..|types| - 1], types[|types| - 1];
      RisesAtMostThrice(front);
      MergeAgainstWiden(Streamed(front), last);
      CanWidenIsAnOrder(types[0], Streamed(front), Streamed(types));
      CanWidenIsAnOrder(Streamed(front), Streamed(types), STRING);
    }
  }
}
