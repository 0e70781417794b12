/** translation/parser.go: which models a model holds, told by its fields and their
    elements alone. */
module FieldEdges {
  import opened Common
  import opened Traversal

  // ----- of a slice -----

  lemma ElementsNext(xs: seq<Option<Pointer>>, n: nat)
    requires n < |xs|
    ensures Elements(xs, n + 1) == Elements(xs, n) + (if xs[n].Some? then [xs[n].value] else [])
  {
  }

  lemma {:induction false} ElementsBefore(xs: seq<Option<Pointer>>, k: nat, a: seq<Option<Pointer>>, n: nat)
    requires n <= k <= |xs| && a == xs[..k]
    ensures Elements(a, n) == Elements(xs, n)
  {
    if n > 0 {
      ElementsBefore(xs, k, a, n - 1);
      ElementsNext(xs, n - 1);
      ElementsNext(a, n - 1);
    }
  }

  lemma ElementsStep(xs: seq<Option<Pointer>>, k: nat, b: seq<Option<Pointer>>, n: nat, front: seq<Pointer>)
    requires n < |b| && k + n < |xs| && xs[k + n] == b[n]
    requires Elements(xs, k + n) == front + Elements(b, n)
    ensures Elements(xs, k + n + 1) == front + Elements(b, n + 1)
  {
    ElementsNext(xs, k + n);
    ElementsNext(b, n);
  }

  lemma {:induction false} ElementsAfter(xs: seq<Option<Pointer>>, k: nat, b: seq<Option<Pointer>>, n: nat,
                                         front: seq<Pointer>)
    requires k <= |xs| && b == xs[k..] && n <= |b| && front == Elements(xs, k)
    ensures Elements(xs, k + n) == front + Elements(b, n)
    decreases n
  {
    if n == 0 {
      assert front + [] == front;
    } else {
      ElementsAfter(xs, k, b, n - 1, front);
      assert xs[k + n - 1] == xs[k..][n - 1];
      ElementsStep(xs, k, b, n - 1, front);
    }
  }

  lemma ElementsJoin(xs: seq<Option<Pointer>>, a: seq<Option<Pointer>>, b: seq<Option<Pointer>>, k: nat)
    requires k <= |xs| && a == xs[..k] && b == xs[k..]
    ensures Elements(xs, |xs|) == Elements(a, |a|) + Elements(b, |b|)
  {
    ElementsBefore(xs, k, a, k);
    ElementsAfter(xs, k, b, |b|, Elements(xs, k));
  }

  /** A slice holds the models of its first part and then those of the rest; one
      element holds itself, and nil and any other field hold nothing. */
  lemma ModelsOfField(a: seq<Option<Pointer>>, b: seq<Option<Pointer>>, q: Pointer)
    ensures FieldModels(Models(a + b)) == FieldModels(Models(a)) + FieldModels(Models(b))
    ensures FieldModels(Models([Some(q)])) == [q] && FieldModels(Models([None])) == [] && FieldModels(Plain) == []
  {
    assert (a + b)[..|a|] == a && (a + b)[|a|..] == b;
    ElementsJoin(a + b, a, b, |a|);
    ElementsNext([Some(q)], 0);
    ElementsNext([None], 0);
  }

  // ----- of a struct -----

  lemma FieldsNext(fields: seq<Field>, n: nat)
    requires n < |fields|
    ensures FieldsModels(fields, n + 1) == FieldsModels(fields, n) + FieldModels(fields[n])
  {
  }

  lemma {:induction false} FieldsBefore(xs: seq<Field>, k: nat, a: seq<Field>, n: nat)
    requires n <= k <= |xs| && a == xs[..k]
    ensures FieldsModels(a, n) == FieldsModels(xs, n)
  {
    if n > 0 {
      FieldsBefore(xs, k, a, n - 1);
      FieldsNext(xs, n - 1);
      FieldsNext(a, n - 1);
    }
  }

  lemma Regroup(front: seq<Pointer>, middle: seq<Pointer>, last: seq<Pointer>)
    ensures front + middle + last == front + (middle + last)
  {
  }

  lemma FieldsStep(fields: seq<Field>, k: nat, b: seq<Field>, n: nat, front: seq<Pointer>)
    requires n < |b| && k + n < |fields| && fields[k + n] == b[n]
    requires FieldsModels(fields, k + n) == front + FieldsModels(b, n)
    ensures FieldsModels(fields, k + n + 1) == front + FieldsModels(b, n + 1)
  {
    FieldsNext(fields, k + n);
    FieldsNext(b, n);
    Regroup(front, FieldsModels(b, n), FieldModels(b[n]));
  }

  lemma {:induction false} FieldsAfter(xs: seq<Field>, k: nat, b: seq<Field>, n: nat, front: seq<Pointer>)
    requires k <= |xs| && b == xs[k..] && n <= |b| && front == FieldsModels(xs, k)
    ensures FieldsModels(xs, k + n) == front + FieldsModels(b, n)
    decreases n
  {
    if n == 0 {
      assert front + [] == front;
    } else {
      FieldsAfter(xs, k, b, n - 1, front);
      assert xs[k + n - 1] == xs[k..][n - 1];
      FieldsStep(xs, k, b, n - 1, front);
    }
  }

  lemma FieldsJoin(xs: seq<Field>, a: seq<Field>, b: seq<Field>, k: nat)
    requires k <= |xs| && a == xs[..k] && b == xs[k..]
    ensures FieldsModels(xs, |xs|) == FieldsModels(a, |a|) + FieldsModels(b, |b|)
  {
    FieldsBefore(xs, k, a, k);
    FieldsAfter(xs, k, b, |b|, FieldsModels(xs, k));
  }

  lemma EdgesOfStruct(h: Heap, p: Pointer, fields: seq<Field>)
    ensures Edges(h[p := Struct(fields)], p) == FieldsModels(fields, |fields|)
  {
  }

  /** A struct holds what its first fields hold and then what the rest do. So each
      element of a slice that is a model is an edge of the walk, as often as it is
      there and in order, and there are no other edges. */
  lemma EdgesByField(h: Heap, p: Pointer, a: seq<Field>, b: seq<Field>, f: Field)
    ensures Edges(h[p := Struct(a + b)], p) == Edges(h[p := Struct(a)], p) + Edges(h[p := Struct(b)], p)
    ensures Edges(h[p := Struct([f])], p) == FieldModels(f) && Edges(h[p := NotStruct], p) == []
  {
    EdgesOfStruct(h, p, a);
    EdgesOfStruct(h, p, b);
    EdgesOfStruct(h, p, a + b);
    EdgesOfStruct(h, p, [f]);
    assert (a + b)[..|a|] == a && (a + b)[|a|..] == b;
    FieldsJoin(a + b, a, b, |a|);
    FieldsNext([f], 0);
    assert FieldsModels([f], 0) == [];
  }
}
