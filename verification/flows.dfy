/**
 * Properties that span several operations: a new user's referral code,
 * once allocated against a truthful backend and written by the signup, is
 * found again by the referral lookup, and no other user holds it.
 */
module Flows {
  import opened Wrappers
  import opened Backend
  import opened ReferralCode
  import opened Allocator
  import opened Signup
  import opened Lookups
  import Fingerprint

  /**
   * A signup that creates the user, starting from a users table with unique
   * codes and with code lookups answered as `.single()` does against it,
   * leaves that user the only holder of the returned code; a truthful
   * `.single()` lookup of the code then yields the new user's id.
   */
  lemma {:induction false} NewUserCodeResolvesToUser(
    db: Db, userId: UserId, email: string, survey: Survey,
    fp: Fingerprint.Fingerprint, referredBy: Option<UserId>,
    documentReferrer: string, replies: SignupReplies, reply: Reply<UserId>)
    requires userId != ""
    requires replies.lookup.Err?
    requires CodesUnique(db.users)
    requires AnswersFaithfully(db.users, replies.attempts, DefaultMaxAttempts)
    requires CreateWaitlistUser(db, userId, email, survey, fp, referredBy, documentReferrer, replies).result.Success?
    requires var run := CreateWaitlistUser(db, userId, email, survey, fp, referredBy, documentReferrer, replies);
             run.result.referralCode.Some? ==> AnswersSingle(run.db.users, run.result.referralCode.value, reply)
    ensures var run := CreateWaitlistUser(db, userId, email, survey, fp, referredBy, documentReferrer, replies);
            && run.result.referralCode.Some?
            && IsCodeShaped(run.result.referralCode.value)
            && Holders(run.db.users, run.result.referralCode.value) == {userId}
            && GetUserIdFromReferralCode(run.result.referralCode.value, reply) == Some(userId)
  {
    var run := CreateWaitlistUser(db, userId, email, survey, fp, referredBy, documentReferrer, replies);
    AbsentUserIsCreated(db, userId, email, survey, fp, referredBy, documentReferrer, replies);
    var alloc := SignupAllocation(replies);
    AllocatedCodeIsFresh(db.users, DefaultMaxAttempts, replies.attempts);
    var code := alloc.outcome.code;
    assert run.db.users == db.users[userId := NewUser(userId, email, code, referredBy)];
    assert Holders(run.db.users, code) == {userId};
    LookupFindsSoleHolder(run.db.users, code, userId, reply);
  }
}
