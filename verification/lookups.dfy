/**
 * The read side: `getUserDashboardData`, which merges a `users` lookup with
 * a `waitlist_signups` lookup, and `getUserIdFromReferralCode`, which maps
 * every failure to null.
 */
module Lookups {
  import opened Wrappers
  import opened Backend

  /** The `users` columns the dashboard selects. */
  datatype Profile = Profile(
    email: string,
    seedsBalance: int,
    referralCode: Option<string>,
    referralCount: int,
    creationDate: string)

  /** The `waitlist_signups` columns the dashboard selects. */
  datatype WaitlistStatus = WaitlistStatus(emailVerified: bool, createdAt: string)

  /** The flattened view: the profile's columns followed by the waitlist status. */
  datatype Dashboard = Dashboard(
    email: string,
    seedsBalance: int,
    referralCode: Option<string>,
    referralCount: int,
    creationDate: string,
    emailVerified: bool,
    createdAt: string)

  /** The queries issued, in order. */
  datatype Query = UserQuery(userId: UserId) | WaitlistQuery(userId: UserId)

  datatype DashboardResult = Loaded(data: Dashboard) | LoadFailed(message: string)

  datatype DashboardRun = DashboardRun(result: DashboardResult, queries: seq<Query>)

  /** `{...userData, email_verified, created_at}`. */
  function Merge(p: Profile, w: WaitlistStatus): Dashboard
  {
    Dashboard(p.email, p.seedsBalance, p.referralCode, p.referralCount, p.creationDate,
              w.emailVerified, w.createdAt)
  }

  function ProfileOf(d: Dashboard): Profile
  {
    Profile(d.email, d.seedsBalance, d.referralCode, d.referralCount, d.creationDate)
  }

  function StatusOf(d: Dashboard): WaitlistStatus
  {
    WaitlistStatus(d.emailVerified, d.createdAt)
  }

  /** Merging loses nothing: the view splits back into its two parts, and every view is a merge. */
  lemma MergeSplits(p: Profile, w: WaitlistStatus, d: Dashboard)
    ensures ProfileOf(Merge(p, w)) == p && StatusOf(Merge(p, w)) == w
    ensures Merge(ProfileOf(d), StatusOf(d)) == d
  {
  }

  /**
   * `getUserDashboardData(userId)`: the user lookup first, the waitlist
   * lookup only if that succeeded; either error fails the whole call with
   * that error's message.
   */
  function GetUserDashboardData(userId: UserId, userReply: Reply<Profile>,
                                waitlistReply: Reply<WaitlistStatus>): (run: DashboardRun)
    ensures run.result.Loaded? <==> userReply.Ok? && waitlistReply.Ok?
    ensures run.result.Loaded? ==>
              ProfileOf(run.result.data) == userReply.data &&
              StatusOf(run.result.data) == waitlistReply.data
    ensures userReply.Err? ==>
              run.result == LoadFailed(userReply.error.message) && run.queries == [UserQuery(userId)]
    ensures userReply.Ok? ==> run.queries == [UserQuery(userId), WaitlistQuery(userId)]
    ensures userReply.Ok? && waitlistReply.Err? ==> run.result == LoadFailed(waitlistReply.error.message)
  {
    match userReply
    case Err(e) => DashboardRun(LoadFailed(e.message), [UserQuery(userId)])
    case Ok(profile) =>
      var queries := [UserQuery(userId), WaitlistQuery(userId)];
      match waitlistReply
      case Err(e) => DashboardRun(LoadFailed(e.message), queries)
      case Ok(status) => DashboardRun(Loaded(Merge(profile, status)), queries)
  }

  /**
   * `getUserIdFromReferralCode(referralCode)`: the id of the row the lookup
   * returned; null on any error, and null for an empty id (`data?.id || null`).
   */
  function GetUserIdFromReferralCode(referralCode: string, reply: Reply<UserId>): (r: Option<UserId>)
    ensures r.Some? <==> reply.Ok? && reply.data != ""
    ensures r.Some? ==> r.value == reply.data
  {
    match reply
    case Err(_) => None
    case Ok(id) => if id == "" then None else Some(id)
  }

  /** A truthful lookup of a code held by exactly one user resolves to that user. */
  lemma {:induction false} LookupFindsSoleHolder(users: map<UserId, User>, code: string, id: UserId, reply: Reply<UserId>)
    requires id in users && users[id].referralCode == Some(code) && id != ""
    requires forall other | other in users && other != id :: users[other].referralCode != Some(code)
    requires AnswersSingle(users, code, reply)
    ensures GetUserIdFromReferralCode(code, reply) == Some(id)
  {
    assert Holders(users, code) == {id};
    assert |Holders(users, code)| == 1;
  }
}
