/** retry/retry.go: Do, over an operation that changes a state. */
module Retry {
  import opened Common
  import opened Errors

  /** How a call of the operation ends; a panic goes through Do. */
  datatype Exit = Done | Failed(err: Error) | Panicked(reason: string)

  /** The k-th call of the operation, from the state the calls before it left. */
  type Op<!S> = (S, nat) -> (S, Exit)

  /** The state after the first n calls. */
  function StateAfter<S>(fn: Op<S>, s: S, n: nat): S {
    if n == 0 then s else fn(StateAfter(fn, s, n - 1), n).0
  }

  /** How the n-th call ends. */
  function ExitOf<S>(fn: Op<S>, s: S, n: nat): Exit
    requires n > 0
  {
    fn(StateAfter(fn, s, n - 1), n).1
  }

  /** Whether Do calls again after its n-th call: it failed, not terminally, the
      budget is not spent, and the wait was not cut short. */
  predicate Retries<S>(budget: nat, terminal: Error -> bool, waits: nat -> bool, fn: Op<S>, s: S, n: nat)
    requires n > 0
  {
    var exit := ExitOf(fn, s, n);
    exit.Failed? && !terminal(exit.err) && n < budget && waits(n)
  }

  function Budget(maxAttempts: int): (n: nat)
    ensures n >= 1
  {
    Max(maxAttempts, 1)
  }

  /** Do calls fn until a call that is not retried and returns how that call
      ended; `noticed` counts the OnRetry calls. `waits(n)` says whether the
      wait after the n-th call ran to its end. */
  method Do<S>(maxAttempts: int, terminal: Error -> bool, waits: nat -> bool, fn: Op<S>, s: S)
    returns (s': S, exit: Exit, calls: nat, noticed: nat)
    ensures 1 <= calls <= Budget(maxAttempts)
    ensures s' == StateAfter(fn, s, calls) && exit == ExitOf(fn, s, calls)
    ensures forall n | 1 <= n < calls :: Retries(Budget(maxAttempts), terminal, waits, fn, s, n)
    ensures !Retries(Budget(maxAttempts), terminal, waits, fn, s, calls)
    ensures noticed == if exit.Failed? && !terminal(exit.err) && calls < Budget(maxAttempts) then calls else calls - 1
    ensures calls == 1 || calls <= maxAttempts
    ensures forall n | 1 <= n < calls ::
              ExitOf(fn, s, n).Failed? && !terminal(ExitOf(fn, s, n).err) && waits(n)
    ensures exit.Failed? && !terminal(exit.err) ==> calls >= maxAttempts || !waits(calls)
  {
    var budget := Max(maxAttempts, 1);
    s', exit, calls, noticed := s, Done, 0, 0;
    var attempt := 1;
    while attempt <= budget
      invariant 1 <= attempt <= budget + 1 && calls == noticed == attempt - 1
      invariant s' == StateAfter(fn, s, calls)
      invariant calls > 0 ==> exit == ExitOf(fn, s, calls)
      invariant forall n | 1 <= n < attempt :: Retries(budget, terminal, waits, fn, s, n)
      invariant forall n | 1 <= n < attempt ::
                  ExitOf(fn, s, n).Failed? && !terminal(ExitOf(fn, s, n).err) && waits(n)
    {
      var r := fn(s', attempt);
      s', exit, calls := r.0, r.1, attempt;
      if !exit.Failed? {
        return;
      }
      if terminal(exit.err) {
        return;
      }
      if attempt == budget {
        return;
      }
      noticed := noticed + 1;
      if !waits(attempt) {
        return;
      }
      attempt := attempt + 1;
    }
  }
}
