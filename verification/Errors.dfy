/** The error values of the queue and of the outbox, and the marks they carry.

    An error is a tree: a mark wraps one error, `fmt.Errorf` with two `%w`
    verbs joins two. A mark is found anywhere in the tree, as `errors.AsType`
    finds it. */
module Errors {
  import opened Common

  datatype Error =
    | Plain(message: string)
    | Panic(reason: string)               // *safetick.PanicError
    | Permanent(cause: Error)             // queue.permanentError
    | Halt(cause: Error)                  // queue.haltError
    | BrokerPermanent(cause: Error)       // broker.permanentError
    | Wrap(message: string, cause: Error)
    | Join(left: Error, right: Error)

  /** The errors reachable from `e` by unwrapping, `e` included. */
  ghost function Chain(e: Error): set<Error> {
    {e} + match e
    case Plain(_) => {}
    case Panic(_) => {}
    case Join(l, r) => Chain(l) + Chain(r)
    case Permanent(c) => Chain(c)
    case Halt(c) => Chain(c)
    case BrokerPermanent(c) => Chain(c)
    case Wrap(_, c) => Chain(c)
  }

  /** The first error of the tree that `accepts` takes, in the order of
      `errors.AsType`: the error itself, then what it wraps, depth first. */
  function AsType(e: Error, accepts: Error -> bool): (r: Option<Error>)
    ensures r.Some? ==> r.value in Chain(e) && accepts(r.value)
    ensures r.None? ==> forall x <- Chain(e) :: !accepts(x)
    decreases e
  {
    if accepts(e) then Some(e) else
    match e
    case Plain(_) => None
    case Panic(_) => None
    case Join(l, r) =>
      var found := AsType(l, accepts);
      if found.Some? then found else AsType(r, accepts)
    case Permanent(c) => AsType(c, accepts)
    case Halt(c) => AsType(c, accepts)
    case BrokerPermanent(c) => AsType(c, accepts)
    case Wrap(_, c) => AsType(c, accepts)
  }

  /** The errors of the tree one after the other: each, then what it wraps, the
      left of two before the right. */
  ghost function Unwrapped(e: Error): seq<Error> {
    [e] + match e
    case Plain(_) => []
    case Panic(_) => []
    case Join(l, r) => Unwrapped(l) + Unwrapped(r)
    case Permanent(c) => Unwrapped(c)
    case Halt(c) => Unwrapped(c)
    case BrokerPermanent(c) => Unwrapped(c)
    case Wrap(_, c) => Unwrapped(c)
  }

  /** What is found has none before it that would do. */
  lemma {:induction false} FoundFirst(e: Error, accepts: Error -> bool) returns (i: nat)
    ensures i <= |Unwrapped(e)| && forall j | 0 <= j < i :: !accepts(Unwrapped(e)[j])
    ensures if i == |Unwrapped(e)| then AsType(e, accepts).None? else AsType(e, accepts) == Some(Unwrapped(e)[i])
    decreases e
  {
    if accepts(e) {
      i := 0;
    } else {
      match e
      case Plain(_) => i := 1;
      case Panic(_) => i := 1;
      case Join(l, r) =>
        var a := FoundFirst(l, accepts);
        if a < |Unwrapped(l)| {
          i := 1 + a;
        } else {
          var b := FoundFirst(r, accepts);
          i := 1 + a + b;
        }
      case Permanent(c) => i := FoundBelow(e, c, accepts);
      case Halt(c) => i := FoundBelow(e, c, accepts);
      case BrokerPermanent(c) => i := FoundBelow(e, c, accepts);
      case Wrap(_, c) => i := FoundBelow(e, c, accepts);
    }
  }

  lemma {:induction false} FoundBelow(e: Error, c: Error, accepts: Error -> bool) returns (i: nat)
    requires !accepts(e) && c < e && Unwrapped(e) == [e] + Unwrapped(c)
    ensures i <= |Unwrapped(e)| && forall j | 0 <= j < i :: !accepts(Unwrapped(e)[j])
    ensures if i == |Unwrapped(e)| then AsType(c, accepts).None? else AsType(c, accepts) == Some(Unwrapped(e)[i])
    decreases e, 0
  {
    var a := FoundFirst(c, accepts);
    i := 1 + a;
  }

  /** Whether a task failed with `e` goes to the dead letters at once. */
  predicate IsPermanent(e: Error) {
    AsType(e, (x: Error) => x.Permanent?).Some?
  }

  /** Whether `e` stops the batch. */
  predicate IsHalt(e: Error) {
    AsType(e, (x: Error) => x.Halt?).Some?
  }

  predicate IsBrokerPermanent(e: Error) {
    AsType(e, (x: Error) => x.BrokerPermanent?).Some?
  }

  /** The panic an outcome carries: it goes to OnPanic. */
  function PanicOf(e: Option<Error>): (p: Option<Error>)
    ensures p.Some? <==> e.Some? && exists x <- Chain(e.value) :: x.Panic?
    ensures p.Some? ==> p.value.Panic?
  {
    if e.None? then None else AsType(e.value, (x: Error) => x.Panic?)
  }

  // A nil error takes no mark.
  function MarkPermanent(e: Option<Error>): Option<Error> {
    if e.None? then None else Some(Permanent(e.value))
  }

  function MarkHalt(e: Option<Error>): Option<Error> {
    if e.None? then None else Some(Halt(e.value))
  }

  /** A mark is there to be found, keeps what it marks, and adds no other. */
  lemma MarksAreKept(e: Option<Error>)
    ensures MarkPermanent(e).Some? <==> e.Some?
    ensures MarkHalt(e).Some? <==> e.Some?
    ensures e.Some? ==>
              var p, h := MarkPermanent(e).value, MarkHalt(e).value;
              && IsPermanent(p) && IsHalt(p) == IsHalt(e.value) && Unwrapped(p)[1..] == Unwrapped(e.value)
              && IsHalt(h) && IsPermanent(h) == IsPermanent(e.value) && Unwrapped(h)[1..] == Unwrapped(e.value)
  {
    if e.Some? {
      MarksAreFoundAnywhere(e.value);
    }
  }

  /** The text of an error; a mark adds none of its own. */
  function Text(e: Error): string {
    match e
    case Plain(m) => m
    case Panic(r) => "panic: " + r
    case Permanent(c) => Text(c)
    case Halt(c) => Text(c)
    case BrokerPermanent(c) => Text(c)
    case Wrap(m, c) => m + ": " + Text(c)
    case Join(l, r) => Text(l) + ": " + Text(r)
  }

  ghost predicate Within(part: string, text: string) {
    exists i, j :: 0 <= i <= j <= |text| && text[i..j] == part
  }

  lemma WithinLonger(part: string, before: string, text: string, after: string)
    requires Within(part, text)
    ensures Within(part, before + text + after)
  {
    var i, j :| 0 <= i <= j <= |text| && text[i..j] == part;
    assert (before + text + after)[|before| + i..|before| + j] == part;
  }

  /** The text of an error holds the texts of all it wraps and every message on the
      way, the outer before the inner; marks add nothing. */
  lemma {:induction false} TextHoldsAll(e: Error, x: Error)
    requires x in Chain(e)
    ensures Within(Text(x), Text(e))
    ensures e.Wrap? ==> e.message <= Text(e) && Within(e.message + ": " + Text(e.cause), Text(e))
    ensures e.Join? ==> Text(e.left) <= Text(e)
    ensures e.Permanent? || e.Halt? || e.BrokerPermanent? ==> Text(e) == Text(e.cause)
  {
    assert Text(e)[0..|Text(e)|] == Text(e);
    if x != e {
      match e
      case Join(l, r) =>
        if x in Chain(l) {
          TextHoldsAll(l, x);
          WithinLonger(Text(x), "", Text(l), ": " + Text(r));
          assert "" + Text(l) + (": " + Text(r)) == Text(e);
        } else {
          TextHoldsAll(r, x);
          WithinLonger(Text(x), Text(l) + ": ", Text(r), "");
          assert Text(l) + ": " + Text(r) + "" == Text(e);
        }
      case Wrap(m, c) =>
        TextHoldsAll(c, x);
        WithinLonger(Text(x), m + ": ", Text(c), "");
        assert m + ": " + Text(c) + "" == Text(e);
      case Permanent(c) => TextHoldsAll(c, x);
      case Halt(c) => TextHoldsAll(c, x);
      case BrokerPermanent(c) => TextHoldsAll(c, x);
    }
  }

  /** A mark of the queue accepts exactly the errors whose tree holds it, so a
      Halt over a Permanent is both, in either order of wrapping. */
  lemma MarksAreFoundAnywhere(e: Error)
    ensures IsPermanent(e) <==> exists x <- Chain(e) :: x.Permanent?
    ensures IsHalt(e) <==> exists x <- Chain(e) :: x.Halt?
    ensures IsBrokerPermanent(e) <==> exists x <- Chain(e) :: x.BrokerPermanent?
    ensures IsPermanent(Permanent(e)) && IsHalt(Halt(e))
    ensures IsPermanent(Halt(e)) == IsPermanent(e) && IsHalt(Permanent(e)) == IsHalt(e)
  {
    var p := (x: Error) => x.Permanent?;
    var h := (x: Error) => x.Halt?;
    assert Chain(Halt(e)) == {Halt(e)} + Chain(e);
    assert Chain(Permanent(e)) == {Permanent(e)} + Chain(e);
    assert AsType(Halt(e), p) == AsType(e, p);
    assert AsType(Permanent(e), h) == AsType(e, h);
  }
}
