# Campaign service model

A Dafny model of `CampaignService`, the decision layer of a voting
back end. It sits between the HTTP handlers and six tables: campaigns,
users, groups, candidates, vote-by-user rows and vote-by-candidate rows.
The service creates a campaign for an existing owner with a list of
groups, loads and lists campaigns, updates a campaign with a shallow field
overwrite, collects the campaigns of a set of groups without duplicates,
and deletes campaigns together with their dependent rows.

The store is the class `Service.CampaignService`. It holds each table as
a sequence of rows in the order the database returns them. Its invariant
`Valid` states what the keys guarantee: group and campaign ids are
distinct, and every owner, group, campaign and candidate-user reference
names a stored row. It also requires every vote for a candidate to name a
stored candidate of the vote's own campaign. The service methods that can
fail (create, findOne, update and delete) return `Result`: the value, or
one of the error kinds `NotFound`, `BadRequest` or `InternalError` (the
HTTP exceptions the service throws). The listing methods return plain
sequences.

Files:

- `seqs.dfy` (`Seqs`): `Option`, `NoDup`, `Filter` (a query with a
  criterion), `FirstIndex` (`find`), and `Distinct`, the iteration order
  of a JavaScript `Set` filled from an array (line 139 of
  `campaign.service.ts`), specified by `DistinctElements`, `DistinctNoDup`
  and `DistinctOrdered`. `Distinct` is proved to be the only sequence
  that holds exactly those elements in first-occurrence order.
- `entities.dfy` (`Entities`): the rows, the payload, the error kinds and
  the read models that carry populated relations.
- `queries.dfy` (`Queries`): the group lookup `FindGroupsByIds` (lines
  55-57 and 113-115), specified by `FoundGroupIds` and `FoundGroupsCount`,
  and its count check; the flattening `CampaignsOfGroups` and the
  deduplication `UniqueById` of `getCampaignsByGroups` (lines 138-140),
  specified by `UniqueByIdSpec` and `UniqueByIdCovers`; `Object.assign` on
  a campaign; the campaign query of the delete, `CampaignsIn` (lines
  151-154), specified by `NoneMatchedIff`; and the filters behind the
  deletes.
- `campaign_service.dfy` (`Service`): the store and the service methods.

Two behaviours of the code are worth stating plainly:

- A delete that matches no campaign fails with `InternalError`. The
  `NotFoundException` (`campaign.service.ts`, lines 156-158) is thrown
  inside the `try`, and the `catch` at lines 167-168 wraps it. A second
  delete of the same ids therefore fails with `InternalError`
  (`Service.DeleteTwice`).
- An update is a shallow merge (`Object.assign`, line 125). Fields missing
  from the payload keep their stored values.

## Model

| member | source | states |
|---|---|---|
| Entities.LookupUser | src/modules/campaign/campaign.service.ts:41-44 | a user is found exactly when a stored user has the id, and it is that user |
| Service.CampaignService.CreateCampaign | src/modules/campaign/campaign.service.ts:36-78 | NotFound when no user has `userId`, checked before any group lookup; otherwise BadRequest unless the requested group ids are distinct and all stored; success exactly when both hold; an error adds nothing; success appends exactly the returned campaign, with the new id, the owner, the payload's columns and exactly the requested groups; the other tables are unchanged and the store invariant is kept |
| Service.CampaignService.FindAll | src/modules/campaign/campaign.service.ts:80-82 | every campaign in store order, each with its stored owner |
| Service.CampaignService.FindOne | src/modules/campaign/campaign.service.ts:84-93 | NotFound exactly when no campaign has the id; otherwise that campaign with its owner, its candidates each exactly once in table order and no others, and each candidate's user exactly when it has one |
| Service.CampaignService.GetCampaignsByUserId | src/modules/campaign/campaign.service.ts:95-100 | exactly the campaigns owned by the user, each once in table order, each with exactly its candidates, each once in table order; empty, not an error, when there are none |
| Service.CampaignService.UpdateCampaign | src/modules/campaign/campaign.service.ts:102-128 | NotFound for an unknown id; BadRequest when the requested groups do not all resolve; success exactly otherwise; an error changes nothing; success replaces the campaign in place and nothing else: same id and owner, the payload's groups when it has a `groups` entry (since `Object.assign` runs after the found groups are assigned), payload columns overwritten and the other columns kept |
| Service.CampaignService.GetCampaignsByGroups | src/modules/campaign/campaign.service.ts:130-143 | no two returned campaigns share an id; a campaign is returned exactly when it is stored and linked to a stored group whose id was asked for; the order is that of first occurrence in the group-by-group flattening |
| Service.CampaignService.RemoveCampaigns | src/modules/campaign/campaign.service.ts:160-163 | the three dependent tables lose exactly the rows of the given campaigns, then the campaigns go; users and groups are unchanged and the store invariant is kept |
| Service.CampaignService.DeleteCampaign | src/modules/campaign/campaign.service.ts:145-170 | BadRequest for a missing, non-array or empty `ids`; success exactly when some stored campaign has one of the ids; otherwise InternalError; an error changes nothing; success removes every vote-by-user, vote-by-candidate and candidate row of those campaigns and the campaigns, and keeps every other row |
| Service.DeleteTwice | src/modules/campaign/campaign.service.ts:150-168 | after a successful delete, deleting the same ids again fails with InternalError |
| Service.CreateThenFindOne | src/modules/campaign/campaign.service.ts:71-92 | a created campaign is what `findOne` returns for its id, with no candidates; after a failed create the id is still unknown |
| Service.DeleteKeepsConsistent | src/modules/campaign/campaign.service.ts:160-163 | deleting campaigns with their candidates and vote rows keeps campaign ids distinct and leaves no dangling reference: every kept candidate and vote row names a kept campaign, and every kept vote for a candidate names a kept candidate of its own campaign |
| Queries.AttachUsers | src/modules/campaign/campaign.service.ts:87 | each candidate row, in order, paired with its user exactly when it links to a stored user |
| Queries.CandidatesListedOnce | src/modules/campaign/campaign.service.ts:87 | a list that follows a campaign's candidate rows position by position holds exactly that campaign's candidates |
| Queries.FoundGroupIds | src/modules/campaign/campaign.service.ts:55-57 | the groups found for a list of ids are exactly the stored groups whose id is in the list |
| Queries.FoundGroupsCount | src/modules/campaign/campaign.service.ts:55-60 | with distinct stored group ids, the number of groups found is the number of distinct requested ids that are stored |
| Queries.AllGroupsFoundIff | src/modules/campaign/campaign.service.ts:59-62 | the count check passes exactly when the requested ids are distinct and all stored, so a request that repeats a group id is rejected |
| Queries.CampaignsOfGroups | src/modules/campaign/campaign.service.ts:138 | the flattening holds exactly the campaigns linked to one of the found groups |
| Queries.FirstWithId | src/modules/campaign/campaign.service.ts:140 | `find` by id yields the first stored campaign with that id: it is in the list, has the id, and no earlier campaign has it |
| Queries.UniqueByIdSpec | src/modules/campaign/campaign.service.ts:139-140 | deduplication leaves distinct ids, keeps only listed campaigns, keeps every id, picks the first campaign listed with each id, and orders by first occurrence |
| Queries.UniqueByIdCovers | src/modules/campaign/campaign.service.ts:139-140 | every listed campaign's id is represented in the deduplicated list |
| Queries.ReachedIsLinked | src/modules/campaign/campaign.service.ts:131-140 | every returned campaign is stored and linked to a stored group whose id was asked for |
| Queries.LinkedIsReached | src/modules/campaign/campaign.service.ts:131-140 | with distinct campaign ids, every stored campaign linked to a stored group whose id was asked for is returned |
| Queries.Assign | src/modules/campaign/campaign.service.ts:125 | `Object.assign` keeps the id and owner, takes the payload's groups when present, and overwrites exactly the payload's columns |
| Queries.NoneMatchedIff | src/modules/campaign/campaign.service.ts:151-157 | the campaign query comes back empty exactly when no stored campaign has one of the ids |
| Queries.CampaignsNotInDistinct | src/modules/campaign/campaign.service.ts:163 | removing campaigns keeps the remaining campaign ids distinct |
| Seqs.FirstIndex | src/modules/campaign/campaign.service.ts:140 | the position found holds the element and no earlier position does |
| Seqs.DistinctElements | src/modules/campaign/campaign.service.ts:139 | a `Set` built from an array holds exactly the array's elements |
| Seqs.DistinctNoDup | src/modules/campaign/campaign.service.ts:139 | a `Set` built from an array lists no element twice |
| Seqs.DistinctOrdered | src/modules/campaign/campaign.service.ts:139 | a `Set` lists its elements in the order they were first added |
| Seqs.DistinctCharacterized | src/modules/campaign/campaign.service.ts:139 | any sequence that holds exactly the array's elements in first-occurrence order is the `Set`'s iteration order |

## Left out

- The HTTP controller and its Swagger decorators: each handler only delegates to the service.
- The database layer: `In(...)` query building, `create`/`save`/`remove`/`delete` internals and the population of `relations`. These become plain lookups and sequence updates on the tables. The row order of a query is the order of the stored sequence.
- The generated id of a new campaign. The database assigns it; here it is the parameter `newId`, required to be unused.
- Service.CampaignService.UpdateCampaign: `Object.assign` also copies the payload's `userId` onto the loaded entity. The entity definition is not part of this model, so the owner relation is kept as stored and `userId` is not treated as a column.
- The payload's group references are modelled as their ids. The payload's other columns are an opaque map from column name to value, assumed not to contain `id`, `user` or `groups`.
- The commented-out moderator check and `ForbiddenException`: the code does not enforce them.
- Exception message texts, including the joined id list in the delete error. Errors are kinds only.
- Asynchrony, transactions, concurrent requests, and a store call failing partway through the delete. The code has no rollback. The model performs the four deletes as one step and claims nothing about atomicity.
- `ids` elements of the wrong type in a delete body. An array body is modelled as a sequence of string ids.
- A vote for a candidate that names a candidate of another campaign. The store invariant excludes it. In the database, deleting that candidate would then fail on the vote's foreign key and the delete would end as `InternalError` partway through; the model does not capture that path.
