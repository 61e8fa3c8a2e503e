/**
 * `createWaitlistUser`: make sure a `users` row exists with the waitlist
 * flag and referrer set, then insert one `waitlist_signups` row. Each
 * backend reply is an input; the tables are threaded through as a `Db`.
 */
module Signup {
  import opened Wrappers
  import opened Backend
  import opened ReferralCode
  import opened Allocator
  import Fingerprint

  /** The survey answers, passed through to the waitlist row unread. */
  datatype Survey = Survey(gameType: string, rewardedApps: string, devices: string)

  /** What the initial `select('id, referral_code')` returns for an existing user. */
  datatype ExistingUser = ExistingUser(id: UserId, referralCode: Option<string>)

  /** The backend's answers to the calls one signup can make. */
  datatype SignupReplies = SignupReplies(
    lookup: Reply<ExistingUser>,
    attempts: nat -> Attempt,
    userWrite: WriteReply,
    waitlistInsert: Reply<Stamp>)

  /** The backend calls a signup issues, in the order it issues them. */
  datatype Call = SelectUser | SelectCode(code: string) | InsertUser | UpdateUser | InsertWaitlist

  datatype SignupResult =
    | Success(data: WaitlistRow, referralCode: Option<string>)
    | Failure(message: string)

  datatype SignupRun = SignupRun(db: Db, result: SignupResult, calls: seq<Call>)

  /** A user created by the signup: zero balances, level 1, 100 water, on the waitlist. */
  function NewUser(userId: UserId, email: string, code: string, referredBy: Option<UserId>): User
  {
    User(userId, email, 0, 0, 1, 0, 0, 100, Some(code), true, referredBy)
  }

  /** The waitlist row: survey and fingerprint fields, referrer defaulting to "direct". */
  function WaitlistEntry(userId: UserId, email: string, survey: Survey, fp: Fingerprint.Fingerprint,
                         documentReferrer: string, stamp: Stamp): WaitlistRow
  {
    WaitlistRow(userId, email, survey.gameType, survey.rewardedApps, survey.devices,
                fp.ip, fp.timezone, fp.browser.Name(), fp.os.Name(), fp.deviceType.Name(), fp.hash,
                if documentReferrer == "" then "direct" else documentReferrer,
                stamp)
  }

  /** The lookup's `data`: the row, or null whatever the error was. */
  function Existing(lookup: Reply<ExistingUser>): Option<ExistingUser>
  {
    if lookup.Ok? then Some(lookup.data) else None
  }

  /** The allocator run the signup makes when the user looks absent. */
  function SignupAllocation(replies: SignupReplies): Allocation
  {
    GenerateUniqueReferralCode(DefaultMaxAttempts, replies.attempts)
  }

  /** Does the signup get as far as writing the user row? */
  predicate ReachesUserWrite(replies: SignupReplies)
  {
    replies.lookup.Ok? || SignupAllocation(replies).outcome.Allocated?
  }

  /**
   * Does the user write go through? It must be reached, accepted by the
   * backend, and, when it is an insert, not collide with an existing row.
   */
  predicate UserWriteSucceeds(db: Db, userId: UserId, replies: SignupReplies)
  {
    ReachesUserWrite(replies) && replies.userWrite.Written? && (replies.lookup.Ok? || userId !in db.users)
  }

  function CodeCalls(codes: seq<string>): (calls: seq<Call>)
    ensures |calls| == |codes|
    ensures forall i | 0 <= i < |codes| :: calls[i] == SelectCode(codes[i])
  {
    seq(|codes|, i requires 0 <= i < |codes| => SelectCode(codes[i]))
  }

  /** Step 3: insert the waitlist row into `db`, after `calls`. */
  function InsertWaitlistStep(db: Db, row: Stamp -> WaitlistRow, code: Option<string>,
                              reply: Reply<Stamp>, calls: seq<Call>): SignupRun
  {
    match reply
    case Ok(stamp) => SignupRun(db.(waitlist := db.waitlist + [row(stamp)]), Success(row(stamp), code), calls + [InsertWaitlist])
    case Err(e) => SignupRun(db, Failure(e.message), calls + [InsertWaitlist])
  }

  /**
   * `createWaitlistUser(userId, email, surveyData, fingerprintData, referredBy)`,
   * with `document.referrer` as `documentReferrer`.
   */
  function CreateWaitlistUser(db: Db, userId: UserId, email: string, survey: Survey,
                              fp: Fingerprint.Fingerprint, referredBy: Option<UserId>,
                              documentReferrer: string, replies: SignupReplies): (run: SignupRun)
    // The user lookup comes first; the waitlist insert, when issued, comes last,
    // and it is issued exactly when the user row was written successfully.
    ensures |run.calls| >= 1 && run.calls[0] == SelectUser
    ensures InsertWaitlist in run.calls <==> UserWriteSucceeds(db, userId, replies)
    ensures InsertWaitlist in run.calls ==> run.calls[|run.calls| - 1] == InsertWaitlist
    // Success needs every write to succeed and returns the row it appended.
    ensures run.result.Success? <==>
              UserWriteSucceeds(db, userId, replies) && replies.waitlistInsert.Ok?
    ensures run.result.Success? ==>
              run.db.waitlist == db.waitlist + [run.result.data] &&
              run.result.data.userId == userId && run.result.data.email == email &&
              run.result.data.stamp == replies.waitlistInsert.data
    ensures run.result.Failure? ==> run.db.waitlist == db.waitlist
    // The appended row records the survey answers and the fingerprint column
    // by column, with an empty `document.referrer` recorded as "direct".
    ensures run.result.Success? ==>
              var row := run.result.data;
              && row.gameType == survey.gameType && row.rewardedApps == survey.rewardedApps
              && row.devices == survey.devices
              && row.ipAddress == fp.ip && row.timezone == fp.timezone
              && row.browser == fp.browser.Name() && row.os == fp.os.Name()
              && row.deviceType == fp.deviceType.Name() && row.fingerprintHash == fp.hash
              && row.referrer == (if documentReferrer == "" then "direct" else documentReferrer)
    // A user write the backend rejects fails the call with the backend's message.
    ensures ReachesUserWrite(replies) && replies.userWrite.WriteFailed? ==>
              run.result == Failure(replies.userWrite.error.message)
    // No user row but `userId`'s is created, changed or removed, and none is
    // touched unless the user write succeeded.
    ensures forall id | id != userId :: (id in run.db.users <==> id in db.users)
    ensures forall id | id != userId && id in db.users :: run.db.users[id] == db.users[id]
    ensures !UserWriteSucceeds(db, userId, replies) ==> run.db == db
  {
    var row := (stamp: Stamp) => WaitlistEntry(userId, email, survey, fp, documentReferrer, stamp);
    match Existing(replies.lookup)
    case None =>
      var alloc := SignupAllocation(replies);
      var calls := [SelectUser] + CodeCalls(alloc.lookups);
      if alloc.outcome.Exhausted? then SignupRun(db, Failure(ExhaustedMessage), calls)
      else
        var code := alloc.outcome.code;
        if replies.userWrite.WriteFailed? then
          SignupRun(db, Failure(replies.userWrite.error.message), calls + [InsertUser])
        else if userId in db.users then
          // The row exists although the lookup failed: the insert breaks the primary key.
          SignupRun(db, Failure(DuplicateId.message), calls + [InsertUser])
        else
          var db1 := db.(users := db.users[userId := NewUser(userId, email, code, referredBy)]);
          InsertWaitlistStep(db1, row, Some(code), replies.waitlistInsert, calls + [InsertUser])
    case Some(existing) =>
      var calls := [SelectUser, UpdateUser];
      if replies.userWrite.WriteFailed? then
        SignupRun(db, Failure(replies.userWrite.error.message), calls)
      else
        // `.update(...).eq('id', userId)` changes no row when there is none.
        var db1 :=
          if userId in db.users then
            db.(users := db.users[userId := db.users[userId].(isWaitlistUser := true, referredBy := referredBy)])
          else db;
        InsertWaitlistStep(db1, row, existing.referralCode, replies.waitlistInsert, calls)
  }

  // ---------------------------------------------------------------------------
  // The two branches
  // ---------------------------------------------------------------------------

  /**
   * User absent (any lookup error): the allocator runs before any write; if
   * it gives up nothing is written; an insert over an existing row fails
   * with the duplicate-key error and writes nothing; otherwise the inserted user has zero
   * seeds, cash, harvests and XP, level 1, 100 water, the waitlist flag, the
   * given referrer and the allocated code, which is what a success returns.
   */
  lemma AbsentUserIsCreated(db: Db, userId: UserId, email: string, survey: Survey,
                            fp: Fingerprint.Fingerprint, referredBy: Option<UserId>,
                            documentReferrer: string, replies: SignupReplies)
    requires replies.lookup.Err?
    ensures var run := CreateWaitlistUser(db, userId, email, survey, fp, referredBy, documentReferrer, replies);
            var alloc := SignupAllocation(replies);
            && |run.calls| >= 1 + |alloc.lookups|
            && run.calls[..1 + |alloc.lookups|] == [SelectUser] + CodeCalls(alloc.lookups)
            && (alloc.outcome.Exhausted? ==>
                  run.result == Failure(ExhaustedMessage) && run.db == db && |alloc.lookups| == DefaultMaxAttempts)
            && (alloc.outcome.Allocated? ==> run.calls[1 + |alloc.lookups|] == InsertUser)
            && (alloc.outcome.Allocated? && replies.userWrite.Written? && userId in db.users ==>
                  run.result == Failure(DuplicateId.message) && run.db == db)
            && (alloc.outcome.Allocated? && replies.userWrite.Written? && userId !in db.users ==>
                  && userId in run.db.users
                  && var u := run.db.users[userId];
                  && u.id == userId && u.email == email
                  && u.seedsBalance == 0 && u.cashBalance == 0 && u.userLevel == 1
                  && u.totalHarvests == 0 && u.experiencePoints == 0 && u.waterBalance == 100
                  && u.referralCode == Some(alloc.outcome.code)
                  && u.isWaitlistUser && u.referredBy == referredBy)
            && (run.result.Success? ==> run.result.referralCode == Some(alloc.outcome.code))
  {
  }

  /**
   * User present: no code is allocated; the update touches only the waitlist
   * flag (set) and `referred_by` (overwritten, even with null), so the
   * stored referral code is kept, and a success returns the code the lookup
   * reported.
   */
  lemma PresentUserIsUpdated(db: Db, userId: UserId, email: string, survey: Survey,
                             fp: Fingerprint.Fingerprint, referredBy: Option<UserId>,
                             documentReferrer: string, replies: SignupReplies)
    requires replies.lookup.Ok?
    ensures var run := CreateWaitlistUser(db, userId, email, survey, fp, referredBy, documentReferrer, replies);
            && run.calls == [SelectUser, UpdateUser] + (if replies.userWrite.Written? then [InsertWaitlist] else [])
            && (replies.userWrite.Written? && userId in db.users ==>
                  && userId in run.db.users
                  && var before, after := db.users[userId], run.db.users[userId];
                  && after.isWaitlistUser && after.referredBy == referredBy
                  && after.referralCode == before.referralCode
                  && after == before.(isWaitlistUser := true, referredBy := referredBy))
            && (userId !in db.users ==> run.db.users == db.users)
            && (run.result.Success? ==> run.result.referralCode == replies.lookup.data.referralCode)
  {
  }

  /**
   * No rollback: when the waitlist insert fails after the user write went
   * through, the call fails with the insert's message and the user table is
   * left exactly as a successful signup would have left it.
   */
  lemma WaitlistFailureKeepsUserWrite(db: Db, userId: UserId, email: string, survey: Survey,
                                      fp: Fingerprint.Fingerprint, referredBy: Option<UserId>,
                                      documentReferrer: string, replies: SignupReplies, stamp: Stamp)
    requires UserWriteSucceeds(db, userId, replies) && replies.waitlistInsert.Err?
    ensures var failed := CreateWaitlistUser(db, userId, email, survey, fp, referredBy, documentReferrer, replies);
            var succeeded := CreateWaitlistUser(db, userId, email, survey, fp, referredBy, documentReferrer,
                                                replies.(waitlistInsert := Ok(stamp)));
            && failed.result == Failure(replies.waitlistInsert.error.message)
            && failed.db.users == succeeded.db.users
            && failed.db.waitlist == db.waitlist
            && failed.calls == succeeded.calls
  {
  }

  /** Only the lookup's `data` is read: every lookup error leads to the same run. */
  lemma LookupErrorsAreAlike(db: Db, userId: UserId, email: string, survey: Survey,
                             fp: Fingerprint.Fingerprint, referredBy: Option<UserId>,
                             documentReferrer: string, replies: SignupReplies,
                             e1: BackendError, e2: BackendError)
    ensures CreateWaitlistUser(db, userId, email, survey, fp, referredBy, documentReferrer, replies.(lookup := Err(e1))) ==
            CreateWaitlistUser(db, userId, email, survey, fp, referredBy, documentReferrer, replies.(lookup := Err(e2)))
  {
  }

  /**
   * A signup keeps referral codes unique, provided they were unique before
   * and the allocator's lookups were answered as `.single()` does.
   */
  lemma {:induction false} SignupKeepsCodesUnique(db: Db, userId: UserId, email: string, survey: Survey,
                                                  fp: Fingerprint.Fingerprint, referredBy: Option<UserId>,
                                                  documentReferrer: string, replies: SignupReplies)
    requires CodesUnique(db.users)
    requires AnswersFaithfully(db.users, replies.attempts, DefaultMaxAttempts)
    ensures CodesUnique(CreateWaitlistUser(db, userId, email, survey, fp, referredBy, documentReferrer, replies).db.users)
  {
    var run := CreateWaitlistUser(db, userId, email, survey, fp, referredBy, documentReferrer, replies);
    if UserWriteSucceeds(db, userId, replies) {
      if replies.lookup.Err? {
        AllocatedCodeIsFresh(db.users, DefaultMaxAttempts, replies.attempts);
        var code := SignupAllocation(replies).outcome.code;
        assert run.db.users == db.users[userId := NewUser(userId, email, code, referredBy)];
      } else if userId in db.users {
        assert run.db.users == db.users[userId := db.users[userId].(isWaitlistUser := true, referredBy := referredBy)];
      }
    }
  }
}
