/**
 * `generateUniqueReferralCode`: draw a candidate code, look it up, and keep
 * it only when the lookup reports "no rows"; give up after `maxAttempts`.
 */
module Allocator {
  import opened Wrappers
  import opened ReferralCode
  import opened Backend

  /** The default attempt budget. */
  const DefaultMaxAttempts: int := 5

  /** The message of the error thrown when the budget is spent. */
  const ExhaustedMessage: string := "Failed to generate unique referral code after multiple attempts"

  /** One pass of the loop: the six index choices and the lookup's answer. */
  datatype Attempt = Attempt(draw: Draw, reply: Reply<UserId>)

  datatype Outcome = Allocated(code: string) | Exhausted

  /** What the allocator returns (or throws), and the codes it looked up, in order. */
  datatype Allocation = Allocation(outcome: Outcome, lookups: seq<string>)

  /** `error && error.code === 'PGRST116'`: the lookup found no row with the code. */
  predicate SignalsFree(reply: Reply<UserId>)
  {
    reply.Err? && reply.error.code == NoRowsCode
  }

  function AttemptBudget(maxAttempts: int, attempt: nat): nat
  {
    if attempt < maxAttempts then maxAttempts - attempt else 0
  }

  /** No attempt numbered in [lo, hi) was answered "no rows". */
  predicate NoneFree(attempts: nat -> Attempt, lo: nat, hi: int)
  {
    forall j: nat | lo <= j < hi :: !SignalsFree(attempts(j).reply)
  }

  /** `lookups` are the codes of attempts `lo`, `lo + 1`, ... in order. */
  predicate LookedUpInOrder(lookups: seq<string>, attempts: nat -> Attempt, lo: nat)
  {
    forall j: nat | lo <= j < lo + |lookups| :: lookups[j - lo] == CodeOf(attempts(j).draw)
  }

  /**
   * The loop from attempt number `attempt` on. Attempts are numbered from 0
   * and `attempts(k)` supplies the k-th draw and the backend's answer to it.
   */
  function AllocateFrom(maxAttempts: int, attempts: nat -> Attempt, attempt: nat): (a: Allocation)
    decreases AttemptBudget(maxAttempts, attempt)
    ensures |a.lookups| <= AttemptBudget(maxAttempts, attempt)
    ensures LookedUpInOrder(a.lookups, attempts, attempt)
    ensures a.outcome.Allocated? ==>
              |a.lookups| >= 1 &&
              a.outcome.code == a.lookups[|a.lookups| - 1] &&
              SignalsFree(attempts(attempt + |a.lookups| - 1).reply) &&
              NoneFree(attempts, attempt, attempt + |a.lookups| - 1)
    ensures a.outcome.Exhausted? ==>
              |a.lookups| == AttemptBudget(maxAttempts, attempt) &&
              NoneFree(attempts, attempt, maxAttempts)
  {
    if attempt >= maxAttempts then Allocation(Exhausted, [])
    else
      var code := CodeOf(attempts(attempt).draw);
      if SignalsFree(attempts(attempt).reply) then Allocation(Allocated(code), [code])
      else
        var rest := AllocateFrom(maxAttempts, attempts, attempt + 1);
        LookedUpPrepend(rest.lookups, attempts, attempt);
        Allocation(rest.outcome, [code] + rest.lookups)
  }

  lemma LookedUpPrepend(rest: seq<string>, attempts: nat -> Attempt, attempt: nat)
    requires LookedUpInOrder(rest, attempts, attempt + 1)
    ensures LookedUpInOrder([CodeOf(attempts(attempt).draw)] + rest, attempts, attempt)
  {
  }

  /**
   * `generateUniqueReferralCode(maxAttempts)`. It looks up at most
   * `maxAttempts` codes; it returns the code of the first attempt whose
   * lookup reported PGRST116, and throws exactly when none of the first
   * `maxAttempts` lookups did, after `maxAttempts` lookups (none when
   * `maxAttempts <= 0`).
   */
  function GenerateUniqueReferralCode(maxAttempts: int, attempts: nat -> Attempt): (a: Allocation)
    ensures |a.lookups| <= AttemptBudget(maxAttempts, 0)
    ensures LookedUpInOrder(a.lookups, attempts, 0)
    ensures a.outcome.Allocated? <==> !NoneFree(attempts, 0, maxAttempts)
    ensures a.outcome.Allocated? ==>
              var n := |a.lookups|;
              n >= 1 && a.outcome.code == CodeOf(attempts(n - 1).draw) &&
              SignalsFree(attempts(n - 1).reply) && NoneFree(attempts, 0, n - 1)
    ensures a.outcome.Exhausted? ==> |a.lookups| == AttemptBudget(maxAttempts, 0)
  {
    AllocateFrom(maxAttempts, attempts, 0)
  }

  /** Each of the first `n` lookups answered as `.single()` does against `users`. */
  predicate AnswersFaithfully(users: map<UserId, User>, attempts: nat -> Attempt, n: nat)
  {
    forall k: nat | k < n :: AnswersSingle(users, CodeOf(attempts(k).draw), attempts(k).reply)
  }

  /**
   * When no two users share a code and the backend answers each lookup as
   * `.single()` does, an allocated code is well-formed and held by no user.
   */
  lemma {:induction false} AllocatedCodeIsFresh(users: map<UserId, User>, maxAttempts: int, attempts: nat -> Attempt)
    requires CodesUnique(users)
    requires AnswersFaithfully(users, attempts, if maxAttempts > 0 then maxAttempts else 0)
    ensures var a := GenerateUniqueReferralCode(maxAttempts, attempts);
            a.outcome.Allocated? ==> IsCodeShaped(a.outcome.code) && CodeUnused(users, a.outcome.code)
  {
    var a := GenerateUniqueReferralCode(maxAttempts, attempts);
    if a.outcome.Allocated? {
      CodeOfShape(attempts(|a.lookups| - 1).draw);
      HoldersOfUniqueCodes(users, a.outcome.code);
    }
  }

  /**
   * `.single()` reports PGRST116 for several matching rows as well as for
   * none, so a code two users already share is taken as free and returned
   * by the first attempt that draws it.
   */
  lemma SharedCodeIsReissued(users: map<UserId, User>, maxAttempts: int, attempts: nat -> Attempt,
                             a: UserId, b: UserId)
    requires maxAttempts > 0
    requires a in users && b in users && a != b
    requires users[a].referralCode == Some(CodeOf(attempts(0).draw))
    requires users[b].referralCode == Some(CodeOf(attempts(0).draw))
    requires AnswersSingle(users, CodeOf(attempts(0).draw), attempts(0).reply)
    ensures GenerateUniqueReferralCode(maxAttempts, attempts).outcome == Allocated(CodeOf(attempts(0).draw))
  {
    SharedCodeReadsAsNoRows(users, CodeOf(attempts(0).draw), a, b, attempts(0).reply);
  }

  /** A backend that reports every code as taken exhausts the budget with exactly that many lookups. */
  lemma AlwaysTakenExhausts(maxAttempts: int, attempts: nat -> Attempt)
    requires forall k: nat :: attempts(k).reply.Ok?
    ensures GenerateUniqueReferralCode(maxAttempts, attempts).outcome == Exhausted
    ensures |GenerateUniqueReferralCode(maxAttempts, attempts).lookups| == if maxAttempts > 0 then maxAttempts else 0
  {
  }
}
