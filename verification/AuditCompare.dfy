/** auditlog/compare.go: when two snapshots are the same.

    A decoded JSON value is a tree; numbers are integers here, which the
    comparison does not look into. */
module AuditCompare {
  import opened Common

  datatype Json =
    | Null
    | Bool(b: bool)
    | Num(n: int)
    | Str(s: string)
    | Arr(items: seq<Json>)
    | Obj(fields: map<string, Json>)

  /** removeKeys: the key gone from every object of the tree. */
  function RemoveKey(j: Json, key: string): Json {
    match j
    case Obj(fields) => Obj(map k | k in fields && k != key :: RemoveKey(fields[k], key))
    case Arr(items) => Arr(seq(|items|, i requires 0 <= i < |items| => RemoveKey(items[i], key)))
    case _ => j
  }

  const UPDATED_AT := "updated_at"
  const UPDATED_BY := "updated_by"

  function Strip(j: Json): Json {
    RemoveKey(RemoveKey(j, UPDATED_AT), UPDATED_BY)
  }

  /** normalizeMap: only an object, or null, decodes into a map. */
  function Normalize(j: Json): Result<Json> {
    if j.Obj? || j.Null? then Ok(Strip(j)) else Err("failed to unmarshal JSON")
  }

  function PayloadsEqual(a: Json, b: Json): Result<bool> {
    var na := Normalize(a);
    if na.Err? then Err(na.message) else
    var nb := Normalize(b);
    if nb.Err? then Err(nb.message) else Ok(na.value == nb.value)
  }

  // ----- what the comparison sees -----

  datatype Step = Field(name: string) | Index(i: nat)

  type Path = seq<Step>

  function Child(j: Json, step: Step): Option<Json> {
    match step
    case Field(name) => if j.Obj? && name in j.fields then Some(j.fields[name]) else None
    case Index(i) => if j.Arr? && i < |j.items| then Some(j.items[i]) else None
  }

  /** The value at a path. */
  function At(j: Json, p: Path): Option<Json>
    decreases |p|
  {
    if p == [] then Some(j) else
      var c := Child(j, p[0]);
      if c.None? then None else At(c.value, p[1..])
  }

  predicate Volatile(step: Step) {
    step.Field? && (step.name == UPDATED_AT || step.name == UPDATED_BY)
  }

  predicate Clean(p: Path) {
    forall step <- p :: !Volatile(step)
  }

  lemma StripChild(j: Json, step: Step)
    ensures Child(Strip(j), step) ==
            if Volatile(step) || Child(j, step).None? then None else Some(Strip(Child(j, step).value))
  {
  }

  /** Normalization removes updated_at and updated_by at every depth, and nothing
      else: what is at a path stays, normalized, unless the path goes through one
      of the two. */
  lemma {:induction false} StripRemovesOnlyVolatile(j: Json, p: Path)
    ensures At(Strip(j), p) == if Clean(p) && At(j, p).Some? then Some(Strip(At(j, p).value)) else None
    decreases |p|
  {
    if p != [] {
      StripChild(j, p[0]);
      if Child(j, p[0]).Some? {
        StripRemovesOnlyVolatile(Child(j, p[0]).value, p[1..]);
      }
      assert p == [p[0]] + p[1..];
      assert Clean(p) <==> !Volatile(p[0]) && Clean(p[1..]);
    }
  }

  /** A node by itself: a scalar, the length of an array, the stable keys of an
      object. */
  datatype Node = Scalar(j: Json) | Array(length: nat) | Object(keys: set<string>)

  function NodeOf(j: Json): Node {
    match j
    case Arr(items) => Array(|items|)
    case Obj(fields) => Object(fields.Keys - {UPDATED_AT, UPDATED_BY})
    case _ => Scalar(j)
  }

  function NodeAt(j: Json, p: Path): Option<Node> {
    var at := At(j, p);
    if at.Some? then Some(NodeOf(at.value)) else None
  }

  ghost predicate SameNodes(a: Json, b: Json) {
    forall p: Path | Clean(p) :: NodeAt(a, p) == NodeAt(b, p)
  }

  lemma SameChildren(a: Json, b: Json, step: Step)
    requires SameNodes(a, b) && !Volatile(step) && Child(a, step).Some? && Child(b, step).Some?
    ensures SameNodes(Child(a, step).value, Child(b, step).value)
  {
    forall p: Path | Clean(p) ensures NodeAt(Child(a, step).value, p) == NodeAt(Child(b, step).value, p) {
      var q := [step] + p;
      assert q[1..] == p && Clean(q);
      assert NodeAt(a, q) == NodeAt(b, q);
    }
  }

  /** Trees that look the same at every stable path strip to one tree. */
  lemma {:induction false} SameNodesSameTree(a: Json, b: Json)
    requires SameNodes(a, b)
    ensures Strip(a) == Strip(b)
    decreases a
  {
    assert Clean([]) && NodeAt(a, []) == NodeAt(b, []);
    match a
    case Arr(items) =>
      forall i | 0 <= i < |items| ensures Strip(a).items[i] == Strip(b).items[i] {
        SameChildren(a, b, Index(i));
        SameNodesSameTree(items[i], b.items[i]);
      }
      assert Strip(a).items == Strip(b).items;
    case Obj(fields) =>
      assert Strip(a).fields.Keys == fields.Keys - {UPDATED_AT, UPDATED_BY};
      assert Strip(b).fields.Keys == b.fields.Keys - {UPDATED_AT, UPDATED_BY};
      forall k | k in Strip(a).fields ensures Strip(a).fields[k] == Strip(b).fields[k] {
        SameChildren(a, b, Field(k));
        SameNodesSameTree(fields[k], b.fields[k]);
      }
      assert Strip(a).fields == Strip(b).fields;
    case _ =>
  }

  lemma StripNode(j: Json)
    ensures NodeOf(Strip(j)) == NodeOf(j)
  {
  }

  lemma SameTreeSameNodes(a: Json, b: Json)
    requires Strip(a) == Strip(b)
    ensures SameNodes(a, b)
  {
    forall p: Path | Clean(p) ensures NodeAt(a, p) == NodeAt(b, p) {
      StripRemovesOnlyVolatile(a, p);
      StripRemovesOnlyVolatile(b, p);
      if At(a, p).Some? { StripNode(At(a, p).value); }
      if At(b, p).Some? { StripNode(At(b, p).value); }
    }
  }

  /** Two snapshots are equal exactly when they show the same at every path that
      does not go through updated_at or updated_by; what is no object, nor null, is
      not compared. */
  lemma EqualIffSameElsewhere(a: Json, b: Json)
    ensures (a.Obj? || a.Null?) && (b.Obj? || b.Null?) ==> PayloadsEqual(a, b) == Ok(SameNodes(a, b))
    ensures !((a.Obj? || a.Null?) && (b.Obj? || b.Null?)) ==> PayloadsEqual(a, b).Err?
  {
    if SameNodes(a, b) {
      SameNodesSameTree(a, b);
    }
    if Strip(a) == Strip(b) {
      SameTreeSameNodes(a, b);
    }
  }
}
