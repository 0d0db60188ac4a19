/**
 * The shape of the claim loops of `materialize_extraction_contract_v2`: one claim after the other over a state that
 * grows, until an exception. What happens to a single claim is a parameter here.
 */
module ClaimLoop {
  import opened Evidence
  import opened ClaimContract

  /** What the claim loops have made of the first claims. */
  datatype Build = Build(claims: seq<Claim>, ledger: Ledger, raised: bool)

  type Step = (Build, Claim) -> Build

  /** The state after the first `n` claims. */
  function Fold(n: nat, start: Build, claims: seq<Claim>, step: Step): Build
    requires n <= |claims|
  {
    if n == 0 then start
    else
      var b := Fold(n - 1, start, claims, step);
      if b.raised then b else step(b, claims[n - 1])
  }

  /** After an exception nothing more happens. */
  lemma {:induction false} FoldRaised(m: nat, n: nat, start: Build, claims: seq<Claim>, step: Step)
    requires m <= n <= |claims| && Fold(m, start, claims, step).raised
    ensures Fold(n, start, claims, step) == Fold(m, start, claims, step)
  {
    if m < n {
      FoldRaised(m, n - 1, start, claims, step);
    }
  }

  lemma FoldLast(n: nat, start: Build, claims: seq<Claim>, step: Step)
    requires n < |claims| && !Fold(n, start, claims, step).raised
    ensures Fold(n + 1, start, claims, step) == step(Fold(n, start, claims, step), claims[n])
  {
  }

  /** A claim that `step` handles raises nothing and keeps the invariant. */
  ghost predicate Handles(k: nat, b: Build, claims: seq<Claim>, step: Step, inv: (nat, Build) -> bool)
    requires k < |claims|
  {
    inv(k, b) && !b.raised ==> inv(k + 1, step(b, claims[k])) && !step(b, claims[k]).raised
  }

  /** If every claim is handled, nothing is raised and the invariant holds after all of them. */
  lemma {:induction false} FoldHandles(n: nat, start: Build, claims: seq<Claim>, step: Step, inv: (nat, Build) -> bool)
    requires n <= |claims| && inv(0, start) && !start.raised
    requires forall k: nat, b :: k < n ==> Handles(k, b, claims, step, inv)
    ensures inv(n, Fold(n, start, claims, step)) && !Fold(n, start, claims, step).raised
  {
    if n > 0 {
      FoldHandles(n - 1, start, claims, step, inv);
      var b := Fold(n - 1, start, claims, step);
      assert Handles(n - 1, b, claims, step, inv);
    }
  }

  /** What every claim keeps, raising or not, holds after all of them. */
  lemma {:induction false} FoldKeeps(n: nat, start: Build, claims: seq<Claim>, step: Step, inv: Build -> bool)
    requires n <= |claims| && inv(start)
    requires forall b, c :: c in claims && inv(b) && !b.raised ==> inv(step(b, c))
    ensures inv(Fold(n, start, claims, step))
  {
    if n > 0 {
      FoldKeeps(n - 1, start, claims, step, inv);
      assert claims[n - 1] in claims;
    }
  }

  /** Claim `k` makes `step` raise if its turn comes. */
  ghost predicate Decides(k: nat, start: Build, claims: seq<Claim>, step: Step, raises: int -> bool)
    requires k < |claims|
  {
    var b := Fold(k, start, claims, step);
    !b.raised ==> (step(b, claims[k]).raised <==> raises(k))
  }

  /** The loop raises exactly when some turn does; after the first of them nothing is built any more. */
  lemma {:induction false} FoldRaises(n: nat, start: Build, claims: seq<Claim>, step: Step, raises: int -> bool)
    requires n <= |claims| && !start.raised
    requires forall k: nat :: k < n ==> Decides(k, start, claims, step, raises)
    ensures Fold(n, start, claims, step).raised ==> exists i :: 0 <= i < n && raises(i)
    ensures (exists i :: 0 <= i < n && raises(i)) ==> Fold(n, start, claims, step).raised
  {
    if n > 0 {
      FoldRaises(n - 1, start, claims, step, raises);
      assert Decides(n - 1, start, claims, step, raises);
    }
  }
}
