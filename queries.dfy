/** The pure parts of the campaign service: the repository criteria it
    uses, the group-count check of create and update, the flattening and
    deduplication of campaigns reached through groups, and the shallow
    overwrite `Object.assign` performs. */
module Queries {
  import opened Seqs
  import opened Entities

  /** The group ids a payload asks for; an absent list asks for none. The
      service only looks groups up when this is non-empty
      (`groups && groups.length > 0`). */
  function RequestedGroupIds(groups: Option<seq<GroupId>>): seq<GroupId>
  {
    match groups
    case None => []
    case Some(ids) => ids
  }

  /** The stored groups whose id is one of `ids`, each row once, in store
      order: `findBy({ id: In(ids) })`. */
  function FindGroupsByIds(gs: seq<Group>, ids: seq<GroupId>): seq<Group>
  {
    Filter(gs, (g: Group) => g.id in ids)
  }

  /** The check the service makes after the group lookup: as many groups
      were found as ids were requested. */
  predicate AllGroupsFound(gs: seq<Group>, ids: seq<GroupId>)
  {
    |FindGroupsByIds(gs, ids)| == |ids|
  }

  /** Every requested id names a stored group, and no id is requested twice. */
  predicate Resolvable(gs: seq<Group>, ids: seq<GroupId>)
  {
    NoDup(ids) && forall id :: id in ids ==> id in GroupIds(gs)
  }

  /** The ids of the groups the lookup finds are the stored ids that were
      asked for. */
  lemma FoundGroupIds(gs: seq<Group>, ids: seq<GroupId>)
    ensures forall id :: id in GroupIds(FindGroupsByIds(gs, ids)) <==> id in GroupIds(gs) && id in ids
  {
    var found := FindGroupsByIds(gs, ids);
    forall id | id in GroupIds(gs) && id in ids
      ensures id in GroupIds(found)
    {
      var i :| 0 <= i < |gs| && GroupIds(gs)[i] == id;
      assert gs[i] in found;
    }
    forall id | id in GroupIds(found)
      ensures id in GroupIds(gs) && id in ids
    {
      var i :| 0 <= i < |found| && GroupIds(found)[i] == id;
      assert found[i] in gs;
    }
  }

  /** With distinct stored ids, the lookup finds one group per stored id
      that was asked for. */
  lemma {:induction false} FoundGroupsCount(gs: seq<Group>, ids: seq<GroupId>)
    requires NoDup(GroupIds(gs))
    ensures |FindGroupsByIds(gs, ids)| == |Elems(GroupIds(gs)) * Elems(ids)|
  {
    if gs != [] {
      var t := gs[1..];
      var stored, rest, asked := Elems(GroupIds(gs)), Elems(GroupIds(t)), Elems(ids);
      assert FindGroupsByIds(gs, ids) == (if gs[0].id in ids then [gs[0]] else []) + FindGroupsByIds(t, ids);
      assert stored == {gs[0].id} + rest && gs[0].id !in rest && NoDup(GroupIds(t)) by {
        assert GroupIds(t) == GroupIds(gs)[1..];
        ElemsCons(GroupIds(gs));
      }
      FoundGroupsCount(t, ids);
      if gs[0].id in ids {
        assert stored * asked == {gs[0].id} + rest * asked;
      } else {
        assert stored * asked == rest * asked;
      }
    }
  }

  /** The count check passes exactly when the requested ids are pairwise
      distinct and every one of them is a stored group: a request naming an
      existing group twice is rejected like one naming a missing group. */
  lemma AllGroupsFoundIff(gs: seq<Group>, ids: seq<GroupId>)
    requires NoDup(GroupIds(gs))
    ensures AllGroupsFound(gs, ids) <==> Resolvable(gs, ids)
  {
    var stored, asked := Elems(GroupIds(gs)), Elems(ids);
    FoundGroupsCount(gs, ids);
    ElemsCard(ids);
    assert asked == stored * asked + (asked - stored);
    assert (stored * asked) * (asked - stored) == {};
    assert |asked| == |stored * asked| + |asked - stored|;
    if AllGroupsFound(gs, ids) {
      assert |asked - stored| == 0;
      forall id | id in ids
        ensures id in GroupIds(gs)
      {
        assert id in asked;
      }
    }
    if forall id :: id in ids ==> id in GroupIds(gs) {
      assert asked - stored == {};
    }
  }

  /** The campaigns linked to group `g`, in store order: the inverse side
      `group.campaigns` of the campaign-group relation. */
  function LinkedCampaigns(cs: seq<Campaign>, g: Group): seq<Campaign>
  {
    Filter(cs, (c: Campaign) => g.id in c.groups)
  }

  /** `groups.flatMap(group => group.campaigns)`: the campaigns of each
      group, group after group. */
  function CampaignsOfGroups(found: seq<Group>, cs: seq<Campaign>): (r: seq<Campaign>)
    ensures forall c :: c in r <==>
              c in cs && exists k :: 0 <= k < |found| && found[k].id in c.groups
  {
    if found == [] then []
    else LinkedCampaigns(cs, found[0]) + CampaignsOfGroups(found[1..], cs)
  }

  /** The campaign `cs.find(c => c.id === id)` returns: the first carrying
      that id. */
  function FirstWithId(cs: seq<Campaign>, id: CampaignId): (c: Campaign)
    requires id in CampaignIds(cs)
    ensures c in cs && c.id == id
    ensures exists i :: 0 <= i < |cs| && cs[i] == c && forall j :: 0 <= j < i ==> cs[j].id != id
  {
    var i := FirstIndex(CampaignIds(cs), id);
    cs[i]
  }

  /** `Array.from(new Set(cs.map(c => c.id))).map(id => cs.find(...))`: the
      distinct ids in first-seen order, each mapped back to its first
      campaign. */
  function UniqueById(cs: seq<Campaign>): seq<Campaign>
  {
    var ids := Distinct(CampaignIds(cs));
    DistinctElements(CampaignIds(cs));
    seq(|ids|, k requires 0 <= k < |ids| => FirstWithId(cs, ids[k]))
  }

  /** Deduplication by id keeps one campaign per id of `cs`, never two with
      the same id, takes each from `cs` as the first campaign with that id,
      and lists them in the order their ids first occur. */
  lemma UniqueByIdSpec(cs: seq<Campaign>)
    ensures NoDup(CampaignIds(UniqueById(cs)))
    ensures forall c :: c in UniqueById(cs) ==> c in cs
    ensures forall id :: id in CampaignIds(UniqueById(cs)) <==> id in CampaignIds(cs)
    ensures forall k :: 0 <= k < |UniqueById(cs)| ==>
              UniqueById(cs)[k] == FirstWithId(cs, UniqueById(cs)[k].id)
    ensures FirstOccurrenceOrder(CampaignIds(cs), CampaignIds(UniqueById(cs)))
  {
    var r := UniqueById(cs);
    DistinctElements(CampaignIds(cs));
    assert CampaignIds(r) == Distinct(CampaignIds(cs));
    DistinctNoDup(CampaignIds(cs));
    DistinctOrdered(CampaignIds(cs));
  }

  /** Every id of `cs` is kept by the deduplication, on a campaign of `cs`. */
  lemma UniqueByIdCovers(cs: seq<Campaign>, c: Campaign)
    requires c in cs
    ensures exists d :: d in UniqueById(cs) && d in cs && d.id == c.id
  {
    var ids := Distinct(CampaignIds(cs));
    DistinctElements(CampaignIds(cs));
    var i :| 0 <= i < |cs| && cs[i] == c;
    assert CampaignIds(cs)[i] == c.id;
    assert c.id in ids;
    var k :| 0 <= k < |ids| && ids[k] == c.id;
    assert UniqueById(cs)[k] == FirstWithId(cs, c.id);
  }

  /** A campaign reached through the groups is stored and linked to a
      stored group whose id was asked for. */
  lemma ReachedIsLinked(gs: seq<Group>, cs: seq<Campaign>, groupIds: seq<GroupId>, c: Campaign)
    requires c in UniqueById(CampaignsOfGroups(FindGroupsByIds(gs, groupIds), cs))
    ensures c in cs && exists k :: 0 <= k < |gs| && gs[k].id in groupIds && gs[k].id in c.groups
  {
    var found := FindGroupsByIds(gs, groupIds);
    var flat := CampaignsOfGroups(found, cs);
    UniqueByIdSpec(flat);
    assert c in flat;
    var j :| 0 <= j < |found| && found[j].id in c.groups;
    assert found[j] in gs;
    var k :| 0 <= k < |gs| && gs[k] == found[j];
  }

  /** In a campaign table with distinct ids, every campaign linked to a
      stored group whose id was asked for is reached through the groups. */
  lemma LinkedIsReached(gs: seq<Group>, cs: seq<Campaign>, groupIds: seq<GroupId>, c: Campaign)
    requires NoDup(CampaignIds(cs)) && c in cs
    requires exists k :: 0 <= k < |gs| && gs[k].id in groupIds && gs[k].id in c.groups
    ensures c in UniqueById(CampaignsOfGroups(FindGroupsByIds(gs, groupIds), cs))
  {
    var found := FindGroupsByIds(gs, groupIds);
    var flat := CampaignsOfGroups(found, cs);
    assert c in flat by {
      var k :| 0 <= k < |gs| && gs[k].id in groupIds && gs[k].id in c.groups;
      assert gs[k] in found;
      var j :| 0 <= j < |found| && found[j] == gs[k];
    }
    UniqueByIdCovers(flat, c);
    var d :| d in UniqueById(flat) && d in flat && d.id == c.id;
    CampaignKey(cs, d, c);
  }

  /** `Object.assign(campaign, dto)`: every column present in the payload
      overwrites the loaded one, the others are kept, and a `groups` list
      present in the payload replaces the campaign's groups. */
  function Assign(c: Campaign, dto: CampaignDto): (r: Campaign)
    ensures r.id == c.id && r.userId == c.userId
    ensures r.groups == if dto.groups.Some? then dto.groups.value else c.groups
    ensures r.fields.Keys == c.fields.Keys + dto.fields.Keys
    ensures forall f :: f in dto.fields ==> r.fields[f] == dto.fields[f]
    ensures forall f :: f in c.fields && f !in dto.fields ==> r.fields[f] == c.fields[f]
  {
    var groups := if dto.groups.Some? then dto.groups.value else c.groups;
    c.(groups := groups, fields := c.fields + dto.fields)
  }

  /** `find({ where: { id: In(ids) } })` on campaigns. */
  function CampaignsIn(cs: seq<Campaign>, ids: seq<CampaignId>): seq<Campaign>
  {
    Filter(cs, (c: Campaign) => c.id in ids)
  }

  /** `find({ where: { id: In(ids) } })` comes back empty exactly when no
      stored campaign has one of the ids. */
  lemma NoneMatchedIff(cs: seq<Campaign>, ids: seq<CampaignId>)
    ensures CampaignsIn(cs, ids) == [] <==> forall i :: 0 <= i < |cs| ==> cs[i].id !in ids
  {
    var m := CampaignsIn(cs, ids);
    if m != [] {
      assert m[0] in cs;
      var i :| 0 <= i < |cs| && cs[i] == m[0];
    } else {
      forall i | 0 <= i < |cs|
        ensures cs[i].id !in ids
      {
        assert cs[i] !in m;
      }
    }
  }

  /** The campaigns left once those with an id in `ids` are removed. */
  function CampaignsNotIn(cs: seq<Campaign>, ids: seq<CampaignId>): seq<Campaign>
  {
    Filter(cs, (c: Campaign) => c.id !in ids)
  }

  /** `delete({ campaign: { id: In(ids) } })` on each dependent table keeps
      the rows of the other campaigns. */
  function VoteUsersNotIn(vs: seq<VoteUser>, ids: seq<CampaignId>): seq<VoteUser>
  {
    Filter(vs, (v: VoteUser) => v.campaignId !in ids)
  }

  function VoteCandidatesNotIn(vs: seq<VoteCandidate>, ids: seq<CampaignId>): seq<VoteCandidate>
  {
    Filter(vs, (v: VoteCandidate) => v.campaignId !in ids)
  }

  function CandidatesNotIn(xs: seq<Candidate>, ids: seq<CampaignId>): seq<Candidate>
  {
    Filter(xs, (x: Candidate) => x.campaignId !in ids)
  }

  /** Removing campaigns keeps the remaining ids distinct. */
  lemma {:induction false} CampaignsNotInDistinct(cs: seq<Campaign>, ids: seq<CampaignId>)
    requires NoDup(CampaignIds(cs))
    ensures NoDup(CampaignIds(CampaignsNotIn(cs, ids)))
  {
    if cs != [] {
      var t := cs[1..];
      assert NoDup(CampaignIds(t)) && cs[0].id !in Elems(CampaignIds(t)) by {
        assert CampaignIds(t) == CampaignIds(cs)[1..];
        ElemsCons(CampaignIds(cs));
      }
      CampaignsNotInDistinct(t, ids);
      var rest := CampaignsNotIn(t, ids);
      if cs[0].id !in ids {
        assert CampaignsNotIn(cs, ids) == [cs[0]] + rest;
        assert CampaignIds([cs[0]] + rest) == [cs[0].id] + CampaignIds(rest);
        assert cs[0].id !in CampaignIds(rest) by {
          forall i | 0 <= i < |rest|
            ensures CampaignIds(rest)[i] != cs[0].id
          {
            assert rest[i] in t;
          }
        }
        NoDupCons(cs[0].id, CampaignIds(rest));
      }
    }
  }

  /** The candidates of campaign `id`: the `candidates` relation. */
  function CandidatesOf(xs: seq<Candidate>, id: CampaignId): seq<Candidate>
  {
    Filter(xs, (x: Candidate) => x.campaignId == id)
  }

  /** The `candidates.user` relation: each candidate row paired with the
      user it is linked to, if any; a link to no stored user loads as none. */
  function AttachUsers(rows: seq<Candidate>, us: seq<User>): (r: seq<CandidateWithUser>)
    ensures |r| == |rows|
    ensures forall i :: 0 <= i < |r| ==>
              && r[i].candidate == rows[i]
              && (r[i].user.Some? <==> rows[i].userId.Some? && rows[i].userId.value in UserIds(us))
              && (r[i].user.Some? ==> r[i].user.value in us && r[i].user.value.id == rows[i].userId.value)
  {
    seq(|rows|, i requires 0 <= i < |rows| =>
      CandidateWithUser(rows[i], if rows[i].userId.Some? then LookupUser(us, rows[i].userId.value) else None))
  }

  /** A list that follows the campaign's candidate rows position by position
      lists exactly the candidates of that campaign. */
  lemma CandidatesListedOnce(r: seq<CandidateWithUser>, xs: seq<Candidate>, id: CampaignId)
    requires |r| == |CandidatesOf(xs, id)|
    requires forall i :: 0 <= i < |r| ==> r[i].candidate == CandidatesOf(xs, id)[i]
    ensures forall x :: x in xs && x.campaignId == id <==>
              exists i :: 0 <= i < |r| && r[i].candidate == x
  {
    var rows := CandidatesOf(xs, id);
    forall x | x in xs && x.campaignId == id
      ensures exists i :: 0 <= i < |r| && r[i].candidate == x
    {
      var i :| 0 <= i < |rows| && rows[i] == x;
      assert r[i].candidate == x;
    }
    forall i | 0 <= i < |r|
      ensures r[i].candidate in xs && r[i].candidate.campaignId == id
    {
      assert rows[i] in rows;
    }
  }

  /** `find({ where: { user: { id: userId } } })` on campaigns. */
  function CampaignsOwnedBy(cs: seq<Campaign>, userId: UserId): seq<Campaign>
  {
    Filter(cs, (c: Campaign) => c.userId == userId)
  }
}
