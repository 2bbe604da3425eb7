/** The campaign service: the decision layer between the HTTP handlers and
    the six tables, modelled over an in-memory store that holds each table
    as a sequence of rows in the order the database returns them. */
module Service {
  import opened Seqs
  import opened Entities
  import opened Queries

  /** What the database's primary and foreign keys guarantee of the six
      tables: distinct group and campaign ids, and every reference from a
      row to a user, group or campaign names a stored row. A vote for a
      candidate is moreover taken to name a candidate of its own campaign. */
  ghost predicate Consistent(
    users: seq<User>, groups: seq<Group>, campaigns: seq<Campaign>,
    candidates: seq<Candidate>, voteUsers: seq<VoteUser>, voteCandidates: seq<VoteCandidate>)
  {
    && NoDup(GroupIds(groups))
    && NoDup(CampaignIds(campaigns))
    && (forall c :: c in campaigns ==> c.userId in UserIds(users))
    && (forall c, g :: c in campaigns && g in c.groups ==> g in GroupIds(groups))
    && (forall x :: x in candidates ==> x.campaignId in CampaignIds(campaigns))
    && (forall x :: x in candidates && x.userId.Some? ==> x.userId.value in UserIds(users))
    && (forall v :: v in voteUsers ==> v.campaignId in CampaignIds(campaigns))
    && (forall v :: v in voteUsers ==> v.userId in UserIds(users))
    && (forall v :: v in voteCandidates ==> v.campaignId in CampaignIds(campaigns))
    && (forall v :: v in voteCandidates ==>
          exists x :: x in candidates && x.id == v.candidateId && x.campaignId == v.campaignId)
  }

  /** Removing some campaigns together with their candidates and vote rows
      leaves no reference dangling, including a vote's reference to its
      candidate. */
  lemma DeleteKeepsConsistent(
    users: seq<User>, groups: seq<Group>, campaigns: seq<Campaign>,
    candidates: seq<Candidate>, voteUsers: seq<VoteUser>, voteCandidates: seq<VoteCandidate>,
    ids: seq<CampaignId>)
    requires Consistent(users, groups, campaigns, candidates, voteUsers, voteCandidates)
    ensures Consistent(users, groups, CampaignsNotIn(campaigns, ids), CandidatesNotIn(candidates, ids),
                       VoteUsersNotIn(voteUsers, ids), VoteCandidatesNotIn(voteCandidates, ids))
  {
    var kept := CampaignsNotIn(campaigns, ids);
    CampaignsNotInDistinct(campaigns, ids);
    forall id | id in CampaignIds(campaigns) && id !in ids
      ensures id in CampaignIds(kept)
    {
      var i :| 0 <= i < |campaigns| && CampaignIds(campaigns)[i] == id;
      assert campaigns[i] in kept;
    }
    var keptCandidates := CandidatesNotIn(candidates, ids);
    forall v | v in VoteCandidatesNotIn(voteCandidates, ids)
      ensures exists x :: x in keptCandidates && x.id == v.candidateId && x.campaignId == v.campaignId
    {
      var x :| x in candidates && x.id == v.candidateId && x.campaignId == v.campaignId;
      assert x in keptCandidates;
    }
  }

  class CampaignService {
    var users: seq<User>
    var groups: seq<Group>
    var campaigns: seq<Campaign>
    var candidates: seq<Candidate>
    var voteUsers: seq<VoteUser>
    var voteCandidates: seq<VoteCandidate>

    ghost predicate Valid()
      reads this
    {
      Consistent(users, groups, campaigns, candidates, voteUsers, voteCandidates)
    }

    /** A store with the given users and groups and no campaign yet. */
    constructor (users: seq<User>, groups: seq<Group>)
      requires NoDup(GroupIds(groups))
      ensures Valid()
      ensures this.users == users && this.groups == groups
      ensures campaigns == [] && candidates == [] && voteUsers == [] && voteCandidates == []
    {
      this.users, this.groups := users, groups;
      campaigns, candidates, voteUsers, voteCandidates := [], [], [], [];
    }

    /** `createCampaign`: the owner must exist (checked first), the requested
        groups must all resolve, and then exactly one campaign is added. The
        database generates the new row's id; here it is the parameter `newId`. */
    method CreateCampaign(dto: CampaignDto, newId: CampaignId) returns (r: Result<Campaign>)
      requires Valid()
      requires newId !in CampaignIds(campaigns)
      modifies this
      ensures Valid()
      ensures users == old(users) && groups == old(groups) && candidates == old(candidates)
      ensures voteUsers == old(voteUsers) && voteCandidates == old(voteCandidates)
      ensures dto.userId !in UserIds(users) ==> r == Err(NotFound)
      ensures dto.userId in UserIds(users) && !Resolvable(groups, RequestedGroupIds(dto.groups))
              ==> r == Err(BadRequest)
      ensures r.Ok? <==> dto.userId in UserIds(users) && Resolvable(groups, RequestedGroupIds(dto.groups))
      ensures r.Err? ==> campaigns == old(campaigns)
      ensures r.Ok? ==> campaigns == old(campaigns) + [r.value]
      ensures r.Ok? ==> r.value.id == newId && r.value.userId == dto.userId && r.value.fields == dto.fields
      ensures r.Ok? ==> |r.value.groups| == |RequestedGroupIds(dto.groups)|
      ensures r.Ok? ==> forall g :: g in r.value.groups <==> g in RequestedGroupIds(dto.groups)
    {
      var user := LookupUser(users, dto.userId);
      if user.None? {
        return Err(NotFound);
      }
      var requested := RequestedGroupIds(dto.groups);
      AllGroupsFoundIff(groups, requested);
      var found: seq<Group> := [];
      if |requested| > 0 {
        found := FindGroupsByIds(groups, requested);
        if |found| != |requested| {
          return Err(BadRequest);
        }
        FoundGroupIds(groups, requested);
      }
      var campaign := Campaign(newId, user.value.id, GroupIds(found), dto.fields);
      assert CampaignIds(campaigns + [campaign]) == CampaignIds(campaigns) + [newId];
      campaigns := campaigns + [campaign];
      r := Ok(campaign);
    }

    /** `findAll`: every campaign, in store order, with its owner. */
    method FindAll() returns (r: seq<CampaignWithUser>)
      requires Valid()
      ensures |r| == |campaigns|
      ensures forall i :: 0 <= i < |r| ==>
                && r[i].campaign == campaigns[i]
                && r[i].user.Some? && r[i].user.value in users
                && r[i].user.value.id == campaigns[i].userId
    {
      var cs, us := campaigns, users;
      r := seq(|cs|, i requires 0 <= i < |cs| => CampaignWithUser(cs[i], LookupUser(us, cs[i].userId)));
    }

    /** `findOne`: the campaign with the given id, its owner, and its
        candidates each with the user it is linked to, if any. */
    method FindOne(id: CampaignId) returns (r: Result<CampaignDetail>)
      requires Valid()
      ensures r.Ok? <==> id in CampaignIds(campaigns)
      ensures r.Err? ==> r.error == NotFound
      ensures r.Ok? ==> r.value.campaign in campaigns && r.value.campaign.id == id
      ensures r.Ok? ==> && r.value.user.Some? && r.value.user.value in users
                        && r.value.user.value.id == r.value.campaign.userId
      ensures r.Ok? ==> forall x :: x in candidates && x.campaignId == id <==>
                          exists i :: 0 <= i < |r.value.candidates| && r.value.candidates[i].candidate == x
      ensures r.Ok? ==> && |r.value.candidates| == |CandidatesOf(candidates, id)|
                        && forall i :: 0 <= i < |r.value.candidates| ==>
                             r.value.candidates[i].candidate == CandidatesOf(candidates, id)[i]
      ensures r.Ok? ==> forall i :: 0 <= i < |r.value.candidates| ==>
                          var e := r.value.candidates[i];
                          && (e.user.Some? <==> e.candidate.userId.Some?)
                          && (e.user.Some? ==> e.user.value in users && e.user.value.id == e.candidate.userId.value)
    {
      if id !in CampaignIds(campaigns) {
        return Err(NotFound);
      }
      var campaign := campaigns[FirstIndex(CampaignIds(campaigns), id)];
      var withUsers := AttachUsers(CandidatesOf(candidates, id), users);
      CandidatesListedOnce(withUsers, candidates, id);
      r := Ok(CampaignDetail(campaign, LookupUser(users, campaign.userId), withUsers));
    }

    /** `getCampaignsByUserId`: the campaigns the user owns, each with its
        candidates; empty, not an error, when there are none. */
    method GetCampaignsByUserId(userId: UserId) returns (r: seq<CampaignWithCandidates>)
      ensures forall c :: c in campaigns && c.userId == userId <==>
                exists i :: 0 <= i < |r| && r[i].campaign == c
      ensures forall i :: 0 <= i < |r| ==>
                forall x :: x in r[i].candidates <==> x in candidates && x.campaignId == r[i].campaign.id
      ensures |r| == |CampaignsOwnedBy(campaigns, userId)|
      ensures forall i :: 0 <= i < |r| ==>
                && r[i].campaign == CampaignsOwnedBy(campaigns, userId)[i]
                && r[i].candidates == CandidatesOf(candidates, r[i].campaign.id)
    {
      var owned, xs := CampaignsOwnedBy(campaigns, userId), candidates;
      r := seq(|owned|, i requires 0 <= i < |owned| => CampaignWithCandidates(owned[i], CandidatesOf(xs, owned[i].id)));
      forall c | c in campaigns && c.userId == userId
        ensures exists i :: 0 <= i < |r| && r[i].campaign == c
      {
        var i :| 0 <= i < |owned| && owned[i] == c;
        assert r[i].campaign == c;
      }
      forall i | 0 <= i < |r|
        ensures r[i].campaign in campaigns && r[i].campaign.userId == userId
      {
        assert owned[i] in owned;
      }
    }

    /** `updateCampaign`: the campaign must exist and the requested groups
        must all resolve; then the loaded row gets the found groups and,
        last, `Object.assign` of the payload, and is saved in place. */
    method UpdateCampaign(id: CampaignId, dto: CampaignDto) returns (r: Result<Campaign>)
      requires Valid()
      modifies this
      ensures Valid()
      ensures users == old(users) && groups == old(groups) && candidates == old(candidates)
      ensures voteUsers == old(voteUsers) && voteCandidates == old(voteCandidates)
      ensures id !in CampaignIds(old(campaigns)) ==> r == Err(NotFound)
      ensures id in CampaignIds(old(campaigns)) && !Resolvable(groups, RequestedGroupIds(dto.groups))
              ==> r == Err(BadRequest)
      ensures r.Ok? <==> id in CampaignIds(old(campaigns)) && Resolvable(groups, RequestedGroupIds(dto.groups))
      ensures r.Err? ==> campaigns == old(campaigns)
      ensures r.Ok? ==>
                var k := FirstIndex(CampaignIds(old(campaigns)), id);
                var before := old(campaigns)[k];
                && campaigns == old(campaigns)[k := r.value]
                && r.value.id == id && r.value.userId == before.userId
                && r.value.groups == (if dto.groups.Some? then dto.groups.value else before.groups)
                && r.value.fields.Keys == before.fields.Keys + dto.fields.Keys
                && (forall f :: f in dto.fields ==> r.value.fields[f] == dto.fields[f])
                && (forall f :: f in before.fields && f !in dto.fields ==> r.value.fields[f] == before.fields[f])
    {
      if id !in CampaignIds(campaigns) {
        return Err(NotFound);
      }
      var k := FirstIndex(CampaignIds(campaigns), id);
      var campaign := campaigns[k];
      var requested := RequestedGroupIds(dto.groups);
      AllGroupsFoundIff(groups, requested);
      if |requested| > 0 {
        var found := FindGroupsByIds(groups, requested);
        if |found| != |requested| {
          return Err(BadRequest);
        }
        campaign := campaign.(groups := GroupIds(found));
      }
      campaign := Assign(campaign, dto);
      assert CampaignIds(campaigns[k := campaign]) == CampaignIds(campaigns);
      campaigns := campaigns[k := campaign];
      r := Ok(campaign);
    }

    /** `getCampaignsByGroups`: the campaigns of the stored groups whose id
        is in `groupIds`, each campaign once, in the order of its first
        appearance when the groups' campaigns are listed group by group. */
    method GetCampaignsByGroups(groupIds: seq<GroupId>) returns (r: seq<Campaign>)
      requires Valid()
      ensures NoDup(CampaignIds(r))
      ensures forall c :: c in r <==>
                c in campaigns &&
                exists k :: 0 <= k < |groups| && groups[k].id in groupIds && groups[k].id in c.groups
      ensures FirstOccurrenceOrder(
                CampaignIds(CampaignsOfGroups(FindGroupsByIds(groups, groupIds), campaigns)),
                CampaignIds(r))
    {
      var found := FindGroupsByIds(groups, groupIds);
      var flat := CampaignsOfGroups(found, campaigns);
      r := UniqueById(flat);
      UniqueByIdSpec(flat);
      forall c
        ensures c in r <==>
                c in campaigns &&
                exists k :: 0 <= k < |groups| && groups[k].id in groupIds && groups[k].id in c.groups
      {
        if c in r {
          ReachedIsLinked(groups, campaigns, groupIds, c);
        }
        if c in campaigns && exists k :: 0 <= k < |groups| && groups[k].id in groupIds && groups[k].id in c.groups {
          LinkedIsReached(groups, campaigns, groupIds, c);
        }
      }
    }

    /** The four deletes of `deleteCampaign`, dependent rows first. */
    method RemoveCampaigns(ids: seq<CampaignId>)
      requires Valid()
      modifies this
      ensures Valid()
      ensures users == old(users) && groups == old(groups)
      ensures && voteUsers == VoteUsersNotIn(old(voteUsers), ids)
              && voteCandidates == VoteCandidatesNotIn(old(voteCandidates), ids)
              && candidates == CandidatesNotIn(old(candidates), ids)
              && campaigns == CampaignsNotIn(old(campaigns), ids)
    {
      DeleteKeepsConsistent(users, groups, campaigns, candidates, voteUsers, voteCandidates, ids);
      voteUsers := VoteUsersNotIn(voteUsers, ids);
      voteCandidates := VoteCandidatesNotIn(voteCandidates, ids);
      candidates := CandidatesNotIn(candidates, ids);
      campaigns := CampaignsNotIn(campaigns, ids);
    }

    /** `deleteCampaign`: rejects a missing, non-array or empty `ids`; when
        no campaign matches, the NotFoundException raised inside the `try`
        is caught and rethrown as an internal error; otherwise deletes the
        vote-by-user rows, the vote-by-candidate rows and the candidates of
        the matched campaigns, in that order, and then the campaigns. */
    method DeleteCampaign(body: IdsBody) returns (r: Result<()>)
      requires Valid()
      modifies this
      ensures Valid()
      ensures users == old(users) && groups == old(groups)
      ensures !body.Ids? || body.ids == [] ==> r == Err(BadRequest)
      ensures r.Ok? <==>
                body.Ids? && body.ids != [] &&
                exists i :: 0 <= i < |old(campaigns)| && old(campaigns)[i].id in body.ids
      ensures body.Ids? && body.ids != [] && !r.Ok? ==> r == Err(InternalError)
      ensures r.Err? ==> && campaigns == old(campaigns) && candidates == old(candidates)
                         && voteUsers == old(voteUsers) && voteCandidates == old(voteCandidates)
      ensures r.Ok? ==> && voteUsers == VoteUsersNotIn(old(voteUsers), body.ids)
                        && voteCandidates == VoteCandidatesNotIn(old(voteCandidates), body.ids)
                        && candidates == CandidatesNotIn(old(candidates), body.ids)
                        && campaigns == CampaignsNotIn(old(campaigns), body.ids)
      ensures r.Ok? ==> && (forall v :: v in voteUsers <==> v in old(voteUsers) && v.campaignId !in body.ids)
                        && (forall v :: v in voteCandidates <==> v in old(voteCandidates) && v.campaignId !in body.ids)
                        && (forall x :: x in candidates <==> x in old(candidates) && x.campaignId !in body.ids)
                        && (forall c :: c in campaigns <==> c in old(campaigns) && c.id !in body.ids)
    {
      if !body.Ids? || |body.ids| == 0 {
        return Err(BadRequest);
      }
      var ids := body.ids;
      var matched := CampaignsIn(campaigns, ids);
      NoneMatchedIff(campaigns, ids);
      if |matched| == 0 {
        return Err(InternalError);
      }
      RemoveCampaigns(ids);
      r := Ok(());
    }
  }

  /** Deleting the same ids a second time after a successful delete finds
      no campaign and so ends in the `catch` block as an internal error. */
  method DeleteTwice(service: CampaignService, ids: seq<CampaignId>) returns (first: Result<()>, second: Result<()>)
    requires service.Valid()
    modifies service
    ensures first.Ok? ==> second == Err(InternalError)
  {
    first := service.DeleteCampaign(Ids(ids));
    second := service.DeleteCampaign(Ids(ids));
  }

  /** A campaign that `createCampaign` saved is what `findOne` then returns
      for its id, with no candidate yet; a failed create leaves the id
      unknown. */
  method CreateThenFindOne(service: CampaignService, dto: CampaignDto, newId: CampaignId)
    returns (created: Result<Campaign>, found: Result<CampaignDetail>)
    requires service.Valid() && newId !in CampaignIds(service.campaigns)
    modifies service
    ensures created.Ok? ==> && found.Ok? && found.value.campaign == created.value
                            && found.value.candidates == []
    ensures created.Err? ==> found == Err(NotFound)
  {
    ghost var before := service.campaigns;
    created := service.CreateCampaign(dto, newId);
    assert forall x :: x in service.candidates ==> x.campaignId != newId;
    found := service.FindOne(newId);
    if created.Ok? {
      assert CampaignIds(service.campaigns)[|before|] == newId;
      CampaignKey(service.campaigns, found.value.campaign, created.value);
      EmptyWithoutElements(found.value.candidates);
    }
  }
}
