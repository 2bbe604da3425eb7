/** The rows of the six tables the campaign service works on, the payload
    it receives, and the errors it raises. Every row is keyed by a string
    id; candidates and vote rows carry the id of their campaign. */
module Entities {
  import opened Seqs

  type UserId = string
  type GroupId = string
  type CampaignId = string

  datatype User = User(id: UserId, roles: seq<string>)

  datatype Group = Group(id: GroupId, name: string)

  /** A campaign row. `userId` is its owner; `groups` is the owning side of
      the many-to-many campaign-group relation; `fields` holds the
      descriptive columns (name, dates, ...) by column name. */
  datatype Campaign = Campaign(
    id: CampaignId,
    userId: UserId,
    groups: seq<GroupId>,
    fields: map<string, string>)

  datatype Candidate = Candidate(id: string, campaignId: CampaignId, userId: Option<UserId>)

  datatype VoteUser = VoteUser(id: string, campaignId: CampaignId, userId: UserId)

  datatype VoteCandidate = VoteCandidate(id: string, campaignId: CampaignId, candidateId: string)

  /** The create/update payload: the owner's id, the optional list of group
      references (by id), and the remaining campaign columns. */
  datatype CampaignDto = CampaignDto(
    userId: UserId,
    groups: Option<seq<GroupId>>,
    fields: map<string, string>)

  /** The `ids` value of a delete request body, which the service receives
      untyped. */
  datatype IdsBody = Missing | NotAnArray | Ids(ids: seq<CampaignId>)

  /** The kinds of HTTP exception the service raises. */
  datatype ErrorKind = NotFound | BadRequest | InternalError

  datatype Result<+T> = Ok(value: T) | Err(error: ErrorKind)

  /** Read models: a row together with the relations a query populates. */
  datatype CampaignWithUser = CampaignWithUser(campaign: Campaign, user: Option<User>)

  datatype CandidateWithUser = CandidateWithUser(candidate: Candidate, user: Option<User>)

  datatype CampaignDetail = CampaignDetail(
    campaign: Campaign,
    user: Option<User>,
    candidates: seq<CandidateWithUser>)

  datatype CampaignWithCandidates = CampaignWithCandidates(campaign: Campaign, candidates: seq<Candidate>)

  function UserIds(us: seq<User>): (r: seq<UserId>)
    ensures |r| == |us| && forall i :: 0 <= i < |us| ==> r[i] == us[i].id
  {
    seq(|us|, i requires 0 <= i < |us| => us[i].id)
  }

  function GroupIds(gs: seq<Group>): (r: seq<GroupId>)
    ensures |r| == |gs| && forall i :: 0 <= i < |gs| ==> r[i] == gs[i].id
  {
    seq(|gs|, i requires 0 <= i < |gs| => gs[i].id)
  }

  function CampaignIds(cs: seq<Campaign>): (r: seq<CampaignId>)
    ensures |r| == |cs| && forall i :: 0 <= i < |cs| ==> r[i] == cs[i].id
  {
    seq(|cs|, i requires 0 <= i < |cs| => cs[i].id)
  }

  /** The user row with the given id, as a lookup by primary key finds it. */
  function LookupUser(us: seq<User>, id: UserId): (r: Option<User>)
    ensures r.Some? <==> id in UserIds(us)
    ensures r.Some? ==> r.value in us && r.value.id == id
  {
    if id in UserIds(us) then Some(us[FirstIndex(UserIds(us), id)]) else None
  }

  /** In a table with distinct ids, the id determines the row. */
  lemma CampaignKey(cs: seq<Campaign>, a: Campaign, b: Campaign)
    requires NoDup(CampaignIds(cs)) && a in cs && b in cs && a.id == b.id
    ensures a == b
  {
    var i :| 0 <= i < |cs| && cs[i] == a;
    var j :| 0 <= j < |cs| && cs[j] == b;
    assert CampaignIds(cs)[i] == CampaignIds(cs)[j];
  }
}
