# lok-server in Dafny

lok-server keeps replicated, cached and time-bounded state right through signal receivers and
careful ordering of writes. This project models the parts where that is hardest and proves what
they promise, for all inputs and over whole runs.

- **Organizations** (`Rows`, `ServiceRoles`, `Grants`, `Organizations`, `OrganizationRuns`, `Invites`,
  `OrganizationWrites`, `OrganizationStore`, `LiveGrants`). One organization is a state machine whose steps
  are the writes the code makes, with their receivers; a refused step leaves the state alone, and
  an `on_commit` sync is a step taken later. The class `Organization` changes rows in place, with
  the two context variables, and each method is proved to make exactly its steps; so the
  theorems over runs hold of the methods.
- **OAuth** (`AuthorizationCodes`, `Tokens`). The code exchange is an interleaved protocol with one program
  counter per request; refresh chains are runs over a clock.
- **Mandate pins** (`MandatePins`). The syntactic inclusion test against inclusion over all manifests.
- **The mesh** (`Tailnets`, `TailnetCache`, `Reconcile`, `Acl`). The server by tailnet id, the client that
  caches ids by name, the reconciler running on that client, and the traffic policy.
- **Slugs and throttling** (`Slugs`, `Throttle`).

Where the code and what is said about it differ, the code is modelled:

- A second `_sync` can change a membership when `admin` itself is a service role (`SyncTwice` gives the exact
  condition).
- `clear()` leaves roles in `automatic_roles` that are not held; a later sync gives them as if by hand
  (`ClearThenSync`). The conservation law is therefore stated for roles lok tracks.
- The row lock in `query_authorization_code` ends with its own transaction, before the exchange goes on. That a
  code answers once rests on the counted delete alone, and the loser has stored its tokens by then.
- A refresh chain is known by its client and the second it began in, so two logins of one client in one second
  are one chain (`TwoIssuedInOneSecond`; `OneLiveExactlyWhen` and `ChainDeadForGood` say exactly when that
  matters); the chain of actual successors is followed by a history field.
- A guest's last grant does not always take the membership along: when the delete comes from a user, the receiver
  leaves the membership to it, also when it is somebody else's (`GuestUntilUpgraded`, `LeftAFullMember`).
- A membership's deletion takes its unused codes along, and their nonces are accepted again
  (`StepKeepsNonceExactlyWhen`, `NonceLedger`).
- `validate_slug` also accepts one final newline.
- A role deleted through an instance loaded before the role became `admin` leaves flags stale
  (`FlagsRightExactlyWhen`).
- A role given by hand after a role-side clear can be taken by the sync that follows
  (`GivenIsKeptExactlyWhen`).
- A tailnet renamed by somebody else is still reached by its old, cached name (`ForeignRenameMisleads`).

Rows are values with integer keys that are never reused. The clock, the active accounts, the names and hubs of
service instances and the liveness of clients are parameters. Lists the code keeps sorted or whose order nothing
reads are sets; loops over such querysets take their rows in any order.

## Model

| member | source | states |
|---|---|---|
| `ServiceRoles.SyncOutcome` | karakter/service_roles.py:51-71 | after a sync the membership holds exactly what is wanted and what was given by hand; lok's own record is exactly what it gave and still wants, within what is held; nothing else of the row changes |
| `ServiceRoles.SyncGivesAndTakes` | karakter/service_roles.py:51-71 | by the columns of roles and membership: exactly which roles a sync gives, takes and keeps on record, and the flag it leaves |
| `ServiceRoles.SyncKeepsHandGiven` | karakter/service_roles.py:51-71 | a sync neither takes a hand-given role nor turns lok's gift into one, where lok's record is within what is held |
| `ServiceRoles.SyncTwice` | karakter/service_roles.py:51-71 | the exact condition, on the membership before the first sync, under which a second sync changes nothing |
| `ServiceRoles.SyncIdempotent` | karakter/service_roles.py:51-87 | with `admin` neither a service role nor lok's gift, a second sync changes nothing |
| `ServiceRoles.SyncNotIdempotentWhenAdminIsADefaultRole` | karakter/service_roles.py:51-71 | a service declaring `admin` as its default role makes a second sync change the membership |
| `ServiceRoles.TakeThenGive` | karakter/service_roles.py:100-112 | giving back what was taken undoes the withholding exactly and makes the roles hand-given |
| `ServiceRoles.GivenIsKeptExactlyWhen` | karakter/service_roles.py:60-71 | a role given by hand is held after the sync that follows exactly when it is wanted or lok has no record of it |
| `ServiceRoles.ClearThenSync` | karakter/service_roles.py:129-138 | clearing a membership's roles: exactly which of the roles held afterwards count as given by hand |
| `ServiceRoles.PromoteThenDemote` | karakter/service_roles.py:60-71 | making a member an admin and taking it back restores the membership: lok takes back exactly what it gave |
| `Organizations.StepKeepsOrgOk` | karakter/collaboration_grants.py:332-375 | every single step keeps: guests hold no roles, the admin flag is the definition, keys, uniqueness, the grant cap |
| `Organizations.EveryRunKeepsOrgOk` | karakter/roles.py:67-134 | in every reachable state, after any steps in any order, deleted users included: guests hold no roles, every `is_admin` equals "holds a role named admin", no membership is over the cap, one membership per user (`FlagsRightExactlyWhen` adds roles deleted through stale instances) |
| `OrganizationRuns.GuestUntilUpgraded` | karakter/collaboration_grants.py:290-347 | short of an upgrade a guest stays a guest without roles, or goes, throughout a run exactly when no deleted user takes the last grants of somebody else's membership along |
| `OrganizationRuns.GuestStaysGuestExactlyWhen` | karakter/collaboration_grants.py:332-347 | the same of every single step |
| `OrganizationRuns.LeftAFullMember` | karakter/collaboration_grants.py:341-342 | whoever loses their last grants that way is a full member, and the next sync gives them every role lok hands out |
| `OrganizationRuns.GuestMadeAMember` | karakter/collaboration_grants.py:341-342 | an organization in which deleting one user makes another, a guest, a member with the default role |
| `OrganizationRuns.DeletedUserTakes` | fakts/models.py:246-250 | by the columns: exactly the instances, roles, invites and membership that go with a user |
| `OrganizationRuns.DeletedUserLeaves` | karakter/models.py:700-705 | and what is left of everybody else, references to the user set to null |
| `OrganizationRuns.DeclaredRole` | fakts/services/permissions.py:36-53 | registering a role writes its flags, or makes it for the declaring instance, and changes nothing else |
| `OrganizationRuns.MembershipSteps` | karakter/models.py:299-305 | what joining, leaving and saving a stale membership write |
| `OrganizationRuns.InstanceSteps` | fakts/models.py:246-250 | an instance is added with its steward and its hub's creator, and goes |
| `OrganizationRuns.GoneForGood` | karakter/collaboration_grants.py:332-347 | a membership that went with its last grant never comes back |
| `OrganizationRuns.HandGivenIsConserved` | karakter/service_roles.py:51-87 | over any run of syncs, owner changes, registrations, deletions and changes to other roles or members, a hand-given role stays exactly as long as it exists and lok's gifts stay lok's |
| `OrganizationRuns.TrackedWithoutClears` | karakter/service_roles.py:100-138 | over any run without clears lok's record of a role stays within what is held |
| `OrganizationRuns.WithheldStaysWithheld` | karakter/service_roles.py:51-138 | over any run without an admin giving it again, a withheld role stays off throughout exactly when no sync finds the member administering and the role a service's admin role; then it stays withheld as long as it exists |
| `OrganizationRuns.StepKeepsOffExactlyWhen` | karakter/service_roles.py:60-71 | the same of every single step |
| `OrganizationRuns.TakenDefaultStaysOff` | karakter/service_roles.py:100-138 | a default role an admin takes, from either side or by a clear, stays off throughout a run exactly under that condition |
| `OrganizationRuns.WithheldAdminRoleComesBack` | karakter/service_roles.py:60-66 | a sync gives a withheld role back exactly when it is an admin role and the member administers |
| `OrganizationRuns.ClearRoleThenSync` | karakter/roles.py:99-106 | clearing a role from its own side: exactly when a later sync gives it again, and when it then counts as given by hand |
| `OrganizationRuns.TakenWasGiven` | karakter/service_roles.py:61-71 | whatever a sync takes, an earlier sync of the run gave, and it has been on record since; without clears it has been held all along, so nobody changed it by hand |
| `OrganizationRuns.FreshDelete` | karakter/roles.py:126-134 | an instance that remembers the identifier rightly deletes as the plain step does |
| `OrganizationRuns.StaleDeleteKeepsFlagExactlyWhen` | karakter/roles.py:126-134 | deleting a role through a stale instance keeps the flag right exactly when the instance remembers `admin` as such or the member is not an admin through it |
| `OrganizationRuns.StaleDeleteLeavesAnAdmin` | karakter/roles.py:126-134 | a member without roles left flagged as an admin |
| `OrganizationRuns.MoveKeepsOrgOkExactlyWhen` | karakter/roles.py:126-134 | of all steps and stale deletes, exactly those keep the invariant that do not delete a held `admin` role through an instance that does not know it as one |
| `OrganizationRuns.FlagsRightExactlyWhen` | karakter/roles.py:67-134 | over any run with stale deletes the invariant, with every flag right, holds throughout exactly when it has no such delete |
| `OrganizationWrites.OwnerChangesHands` | karakter/service_roles.py:85-87 | after an owner change and a sync, exactly which roles every full member holds |
| `OrganizationWrites.InstanceTakesItsGuests` | karakter/collaboration_grants.py:332-347 | deleting a service instance leaves no grant on it; a guest stays exactly when another grant is left; full members are untouched |
| `OrganizationWrites.InviteGrantsRevoked` | karakter/collaboration_grants.py:319-325 | revoking an invite's grants leaves exactly the grants not handed out through it and the memberships with others or with none |
| `Grants.StoredEntryParsesBack` | karakter/collaboration_grants.py:77-112 | storing a canonical collaboration and parsing it gives it back |
| `Grants.ParsedIsCanonical` | karakter/collaboration_grants.py:88-112 | whatever parses is in canonical form: instance text, collaboration id, stripped roles within their length |
| `Grants.ParsesExactlyWhen` | karakter/collaboration_grants.py:88-112 | exactly which entries parse, character by character, and to which instance, collaboration and roles |
| `Grants.NumberIsItsNumeral` | karakter/collaboration_grants.py:99-99 | a numeric instance id is read as the text of its number |
| `Grants.ParseStoreParse` | karakter/collaboration_grants.py:77-112 | for every entry that parses, storing the result and parsing it again gives the same, whatever the order of roles |
| `Grants.MergeEntries` | karakter/collaboration_grants.py:115-121 | the loop of `_merge` computes the merge, and fails on a malformed entry |
| `Grants.MergeIsUnion` | karakter/collaboration_grants.py:115-121 | merging fails exactly on a malformed entry; otherwise each collaboration holds exactly the roles some entry gives it |
| `Grants.ChangesExactlyWhenContentDoes` | karakter/collaboration_grants.py:240-287 | a change is reported exactly when roles or mesh of some collaboration changed; without one every row stays as it was |
| `Grants.GrantingAgainChangesNothing` | karakter/collaboration_grants.py:240-287 | repeating a call reports no change and changes nothing |
| `Grants.GrantsAccumulate` | karakter/collaboration_grants.py:240-287 | after any sequence of calls, roles are the union and the mesh flag the disjunction of everything given |
| `Grants.GrantsFormAJoin` | karakter/collaboration_grants.py:240-287 | the same calls in any order and any number of times give the same roles and mesh |
| `Grants.GrantedRow` | karakter/collaboration_grants.py:258-287 | column by column: what a new collaboration is stored with, what one that gains something takes and keeps, and that any other stays |
| `Grants.GrantedWithinCap` | karakter/collaboration_grants.py:273-277 | a call that is not refused leaves at most 200 grants |
| `Invites.RedeemOutcome` | karakter/invites.py:57-101 | a redemption changes no invite but its own, and that as its outcome says |
| `Invites.RefusedExactlyWhen` | karakter/invites.py:35-75 | exactly when a redemption is refused, by status, expiry, entries, instances and cap, and which outcome the others have |
| `Invites.NothingNewSpendsNothing` | karakter/invites.py:65-77 | a full member, a guest who has it all and a refused caller change nothing at all on a collaboration invite |
| `Invites.NewcomerGains` | karakter/invites.py:68-77 | somebody new always gains something from a collaboration invite, so no membership without grants is left behind |
| `Invites.RedeemMakesAGuest` | karakter/invites.py:65-86 | accepting a collaboration invite leaves a guest without roles; each new collaboration has exactly the invite's roles and mesh, its maker as granter, the invite and no expiry; those there already gain what is new; all others stay |
| `Invites.RedeemMakesAMember` | karakter/invites.py:88-101 | accepting an ordinary invite leaves a full member, also of a guest, and exactly which roles they hold |
| `Invites.HeldOnceAddedMeans` | karakter/service_roles.py:60-71 | by the columns: exactly which roles a member holds once roles are added |
| `Invites.InviteRolesMean` | karakter/invites.py:47-54 | an invite gives its roles, or the role named `guest` |
| `OrganizationWrites.ApproveMakesAMember` | karakter/models.py:416-433 | approving leaves a full member of a newcomer, a guest or a full member, and exactly which roles they hold |
| `Invites.EventOnInvite` | karakter/models.py:661-686 | what any event does to any invite: terms never change; one that gives something counts a use and leaves a collaboration invite pending exactly while uses are left, an ordinary one accepted; else the status stays unless it is closed; it may go with its maker, for good |
| `Invites.InviteLedger` | karakter/invites.py:57-101 | over any run `uses` counts exactly the redemptions that gave something and stays within `max_uses`; unless closed, a collaboration invite is pending exactly as long as the limit is not reached and an ordinary one exactly until it is redeemed, once at most; none is pending again; the bounds hold also when the invite goes |
| `OrganizationStore.Organization.SyncAdmin` | karakter/roles.py:67-73 | the flags of these memberships are right afterwards; every other field and every other membership is as it was |
| `OrganizationStore.Organization.SyncAll` | karakter/roles.py:76-82 | from any state every flag is right afterwards, nothing else changed, and the answer is how many were wrong |
| `OrganizationStore.Organization.SyncOne` | karakter/service_roles.py:51-71 | the adds and removes of `_sync`, with the receivers they fire, make the specified sync |
| `OrganizationStore.Organization.SyncServiceRoles` | karakter/service_roles.py:74-82 | the loop over full members is one sync step; while lok syncs, nothing happens |
| `OrganizationStore.Organization.AddRoles` | karakter/service_roles.py:135-138 | adding roles and the receivers it fires: refused for a guest, otherwise the give and the sync that follows |
| `OrganizationStore.Organization.RemoveRoles` | karakter/service_roles.py:133-138 | removing roles and the receivers it fires |
| `OrganizationStore.Organization.ClearRoles` | karakter/service_roles.py:129-138 | clearing a membership's roles and the receivers it fires |
| `OrganizationStore.Organization.AddMembers` | karakter/service_roles.py:119-127 | adding a role from its own side: refused when a guest would get it |
| `OrganizationStore.Organization.RemoveMembers` | karakter/service_roles.py:119-127 | removing a role from its own side |
| `OrganizationStore.Organization.ClearMembers` | karakter/roles.py:99-106 | clearing a role from its own side: flags follow, nobody is synced, nothing is withheld |
| `OrganizationStore.Organization.RenameRole` | karakter/roles.py:114-123 | renaming a role recomputes its holders' flags when `admin` comes or goes; a taken identifier is refused |
| `OrganizationStore.Organization.DeleteRole` | karakter/roles.py:126-134 | deleting a role takes its rows along and keeps the flags right |
| `OrganizationStore.StoreRows` | karakter/collaboration_grants.py:258-287 | the loop stores exactly the join, answers whether something grew, raises exactly when the cap is exceeded, and then leaves rows over the cap with some collaborations stored |
| `OrganizationStore.Organization.GrantCollaborations` | karakter/collaboration_grants.py:240-287 | when it answers and when it raises, that its effect is one grant step, and what a raise leaves: nothing changed, or this membership over the cap with some collaborations stored |
| `OrganizationStore.Organization.DeleteGrant` | karakter/collaboration_grants.py:332-347 | a deleted grant takes its membership along when it was the last, except during an upgrade and when the delete came from a membership, an organization or a user |
| `OrganizationStore.Organization.DeleteUser` | karakter/collaboration_grants.py:332-347 | the rows a user takes along, those on the instances they steward or whose hub they created included, are exactly the user's deletion step |
| `OrganizationStore.Organization.RevokeGrant` | karakter/collaboration_grants.py:311-316 | one grant goes; the answer is whether the membership went with it |
| `OrganizationStore.Organization.RevokeInviteGrants` | karakter/collaboration_grants.py:319-325 | the loop drops exactly the grants handed out through the invite and counts them |
| `OrganizationStore.Organization.DeleteInstance` | karakter/collaboration_grants.py:333-347 | an instance takes its grants, the guests without others and the roles it declared along |
| `OrganizationStore.Organization.UpgradeToFull` | karakter/collaboration_grants.py:295-308 | the loop removes every grant and keeps the membership |
| `OrganizationStore.Organization.AssignInviteRoles` | karakter/invites.py:47-54 | the invite's roles are set, or `guest` added |
| `OrganizationStore.Organization.RedeemInvite` | karakter/invites.py:57-101 | the whole redemption makes exactly the steps of its plan, with its outcome, and a refused one changes nothing |
| `OrganizationStore.Organization.ApproveMembershipRequest` | karakter/models.py:416-433 | approving makes exactly its steps and leaves the requester a full member |
| `LiveGrants.LiveCollaborations` | karakter/collaboration_grants.py:206-237 | the dictionary of the live grants on wanted instances in the order of creation; everything listed is one, with exactly its roles that the granter holds now, and every one has its place |
| `LiveGrants.LatestStands` | karakter/collaboration_grants.py:235-236 | where several grants have one service name and collaboration id, the one created last stands |
| `LiveGrants.ChosenInOrder` | karakter/collaboration_grants.py:221-226 | the live grants on wanted instances are taken in the order of creation |
| `LiveGrants.LimitIsVacuous` | karakter/collaboration_grants.py:221-226 | the cap on grants makes the query's limit leave out nothing |
| `LiveGrants.LiveExactlyWhen` | karakter/collaboration_grants.py:179-194 | by the columns: a grant is live when it has not expired and its granter is active with a membership without grants |
| `LiveGrants.MeshHubsExactly` | karakter/collaboration_grants.py:197-203 | exactly the hubs of live grants that allow the mesh |
| `LiveGrants.CutExactly` | karakter/collaboration_grants.py:228-236 | exactly the roles of the grant whose name some role has that the granter holds |
| `LiveGrants.RedeemedIsLive` | karakter/invites.py:70-77 | what an invite grants anew is live while its maker is an active full member |
| `LiveGrants.DistinctNamesListExactly` | karakter/collaboration_grants.py:206-237 | a grant whose service name no other wanted instance has is listed exactly when it is live and wanted, cut to its granter's roles |
| `LiveGrants.NoMoreThanTheGranter` | karakter/collaboration_grants.py:179-237 | every listed role is one that whoever granted it, an active full member, holds in the organization now |
| `AuthorizationCodes.StepKeepsOk` | authapp/grants.py:99-163 | every step of every exchange keeps the protocol's invariant |
| `AuthorizationCodes.CodeAnswersOnce` | authapp/grants.py:99-132 | under every interleaving of any number of exchanges at most one of a code answers |
| `AuthorizationCodes.AnsweredCodeIsDead` | authapp/grants.py:126-132 | a code that was answered is gone in every later state |
| `AuthorizationCodes.BeginsExactlyWhen` | authapp/grants.py:99-124 | a request gets hold of a code exactly when there is a row of it for the client, at most 600 s old |
| `AuthorizationCodes.NeverClaimedLate` | authapp/models.py:128-131 | after 600 s, over any run, no request gets hold of the code |
| `AuthorizationCodes.StoredExactlyWhenSaved` | authapp/models.py:18-18 | over any run an exchange has its token row exactly when it passed the save and its membership is not deleted |
| `AuthorizationCodes.OneStoredPairIsAnswered` | authapp/grants.py:126-132 | an exchange has one token row at most, and of the rows stored for one code in any run at most one is of an exchange that answered |
| `AuthorizationCodes.StepKeepsNonceExactlyWhen` | authapp/grants.py:21-38 | a known nonce stays known exactly when the step does not delete the membership of all code rows that carry it, unspent |
| `AuthorizationCodes.StepLearnsNonceExactlyWhen` | authapp/grants.py:134-163 | an unknown nonce becomes known exactly by an accepted request or by an exchange whose code row went meanwhile |
| `AuthorizationCodes.NonceStaysKnown` | authapp/grants.py:21-38 | a known nonce is known throughout a run exactly when no step forgets it |
| `AuthorizationCodes.NonceLedger` | authapp/grants.py:21-38 | over any run every acceptance of a nonce is accounted for by what was known, forgotten and relearned |
| `AuthorizationCodes.NonceAcceptedOnce` | authapp/grants.py:21-38 | a nonce is accepted at most once per client in every run that does not forget it, never when known at the start, and at most once more per forgetting |
| `AuthorizationCodes.ForgottenIsAcceptedAgain` | authapp/grants.py:21-38 | after any forgetting step the next request with the nonce, for another membership, is let through |
| `AuthorizationCodes.CascadeForgetsANonce` | authapp/models.py:90-91 | a membership's deletion that takes an unused code along lets its nonce through again |
| `AuthorizationCodes.LoserHasStoredItsTokens` | authapp/grants.py:126-132 | of two exchanges of a code that saved, one answers and the other fails, and both token rows stay |
| `AuthorizationCodeGrant.Tables.AuthorizeRequest` | authapp/grants.py:144-163 | the nonce check and the saved row, with its client, membership, nonce and time, are the protocol's authorize step |
| `AuthorizationCodeGrant.Tables.ExistsNonceHere` | authapp/grants.py:21-38 | a request of this client with the nonce and a new code is let through exactly when the answer is no |
| `AuthorizationCodeGrant.Tables.QueryAuthorizationCode` | authapp/grants.py:99-124 | the row of this code and client issued at most 600 s ago, or nothing exactly when there is none |
| `AuthorizationCodeGrant.Tables.AuthenticateUser` | authapp/grants.py:134-142 | the exchange's record step under any other exchanges; the nonce is known from then on |
| `AuthorizationCodeGrant.Tables.StoreToken` | authapp/grants.py:165-173 | the exchange's save step under any other exchanges: its token row is there, unless its membership is deleted |
| `AuthorizationCodeGrant.Tables.DeleteMember` | authapp/models.py:18-18 | a membership's deletion takes its codes and tokens along, whatever exchanges are under way |
| `AuthorizationCodeGrant.Tables.DeleteAuthorizationCode` | authapp/grants.py:126-132 | the exchange's delete step under any other exchanges: it answers or fails; nobody can claim the code afterwards |
| `AuthorizationCodeGrant.Exchanging` | authapp/grants.py:99-142 | a request alone answers exactly when the code is there for its client and at most 600 s old; then the code is gone, its nonce spent and its tokens stored |
| `Tokens.AccessTokenExpiresIn` | authapp/server.py:206-251 | the exact seconds for every stored value, zero and negative ones included, and for guests: always in [300, 86400], at most 900 for a guest's client |
| `Tokens.StepKeepsOk` | authapp/grants.py:184-253 | every step keeps the table's invariant |
| `Tokens.EveryRunKeepsTableOk` | authapp/grants.py:184-253 | in every reachable state each chain of refreshes has at most one unrevoked row, one client, one start, and no row issued past start + 15552000 |
| `Tokens.NoAccessPastTheCap` | authapp/models.py:53-78 | no access token is valid after its chain's start + 15552000 + 86400 |
| `Tokens.StartIsConstant` | authapp/grants.py:239-253 | every later row of a chain has its start and its client, whatever became of earlier rows |
| `Tokens.RefreshesExactlyWhen` | authapp/models.py:63-78 | a refresh stores a successor exactly for an unrevoked row of that token and client issued at most 2592000 s ago in a chain begun at most 15552000 s ago, and exactly what it then writes |
| `Tokens.StaleRefreshChangesNothing` | authapp/grants.py:184-196 | a token past either limit, another client's or nobody's changes nothing |
| `Tokens.RevokedRows` | authapp/revocation.py:37-39 | revoking a token, or clients, revokes those rows and no other |
| `Tokens.ReplayKillsTheChain` | authapp/grants.py:208-213 | presenting a revoked refresh token revokes exactly the rows of its client and second, the whole chain of successors among them |
| `Tokens.DeadForGood` | authapp/grants.py:184-230 | a dead chain stays dead over any run |
| `Tokens.StepKeepsDeadExactlyWhen` | authapp/grants.py:209-213 | a dead chain, by client and second, stays dead exactly when the step does not begin another in that second |
| `Tokens.ChainDeadForGood` | authapp/grants.py:209-213 | over a run it is dead throughout exactly when the client begins no chain in that second, which it cannot once the second is over |
| `Tokens.StepKeepsOneLiveExactlyWhen` | authapp/grants.py:209-213 | a chain, by client and second, goes on having at most one unrevoked row exactly when an issuing in that second finds it dead |
| `Tokens.OneLiveExactlyWhen` | authapp/grants.py:209-213 | over a run it has at most one unrevoked row throughout exactly when the client never begins another in that second while one lives; so when it begins at most one |
| `Tokens.TwoIssuedInOneSecond` | authapp/models.py:33-39 | two issuings of one client in one second share what identifies a chain, both live |
| `Tokens.PruneDeletesOnlyExpired` | authapp/fakts_grants.py:276-296 | in any reachable state the prune deletes exactly this client's refresh-less rows issued over 86400 s ago, all of which have expired, and one row is added |
| `TokenEndpoint.Store.AuthenticateRefreshToken` | authapp/grants.py:184-230 | the row exactly when it is unrevoked and within both limits, else nothing; a revoked one takes its chain along |
| `TokenEndpoint.Store.Rotate` | authapp/grants.py:235-253 | the row saved with a new start ends up with the old one's, and the old one revoked |
| `TokenEndpoint.Store.CreateRefreshResponse` | authapp/grants.py:184-253 | a refresh is exactly the refresh step, and exactly when it answers |
| `TokenEndpoint.Store.CreateMandateKeyResponse` | authapp/fakts_grants.py:276-296 | issue and prune are exactly the mandate-key step |
| `MandatePins.WithinIsSound` | fakts/base_models.py:234-252 | a pin within a ceiling admits nothing the ceiling refuses |
| `MandatePins.EscapeEscapes` | fakts/base_models.py:234-252 | for a pin not within a ceiling, a manifest it admits and the ceiling refuses |
| `MandatePins.WithinIsInclusion` | fakts/base_models.py:214-252 | `assert_within` succeeds if and only if every manifest one pin admits the other admits |
| `MandatePins.AdmitsExactly` | fakts/base_models.py:214-232 | what a pin admits, by the lists of pin and manifest; base scopes need not be named, a requirement counts by its service |
| `MandatePins.ReasonIsFirst` | fakts/base_models.py:214-232 | the reason given, with exactly the scopes or requirements that are too much |
| `MandatePins.ChainsOnlyNarrow` | fakts/base_models.py:234-252 | along an issuing chain of any length every pin is within every earlier one |
| `MandatePins.FromManifestIsLeast` | fakts/base_models.py:193-200 | the pin of a manifest admits it and is within a ceiling exactly when the ceiling admits the manifest and pins nothing the new pin leaves open |
| `MandatePins.NarrowingToDevice` | fakts/base_models.py:254-255 | exactly when narrowing stays within the pin, and what it then admits |
| `MandatePins.FixingTheIdentifier` | fakts/base_models.py:257-258 | exactly when fixing stays within the pin, and what it then admits |
| `Tailnets.Create` | ionscale/testing.py:123-138 | creating keeps names and organization bindings unique |
| `Tailnets.CreateDoes` | ionscale/testing.py:123-138 | created exactly when neither the name nor the organization is taken; new, empty, bound, and no other touched |
| `Tailnets.Perform` | ionscale/testing.py:75-97 | a call is not found exactly for a dead id, and keeps names and bindings unique |
| `Tailnets.PerformDoes` | ionscale/testing.py:75-97 | what each call does to the tailnet and that it does nothing to any other; a rename is refused exactly when the name is taken |
| `TailnetCache.CalledActsOnTarget` | ionscale/http_repo.py:154-167 | which tailnet a cached call, with its one retry, acts on in the end |
| `TailnetCache.TargetIsRightExactlyWhen` | ionscale/http_repo.py:140-167 | it is the one bearing the name now exactly when the cache entry is not a live tailnet of another name |
| `TailnetCache.CachedCallIsFresh` | ionscale/http_repo.py:154-167 | with a right cache a call does and answers what a fresh lookup would, not found exactly when no tailnet bears the name |
| `TailnetCache.Remembers` | ionscale/http_repo.py:140-149 | a call remembers the tailnet it found, a delete forgets the name |
| `TailnetCache.RemembersNames` | ionscale/http_repo.py:176-220 | a created or renamed tailnet is remembered by its name, the old name forgotten |
| `TailnetCache.StepKeepsCacheOk` | ionscale/http_repo.py:140-226 | every operation, and every foreign create or delete, keeps each entry right or dead |
| `TailnetCache.EveryRunKeepsCacheOk` | ionscale/http_repo.py:140-226 | over every run each cached entry is right or dead, so every later call refines a fresh lookup |
| `TailnetCache.ForeignRenameMisleads` | ionscale/http_repo.py:154-167 | after a rename by somebody else a call by the old name deletes a tailnet that no longer bears it |
| `TailnetRepository.Repository.ListTailnets` | ionscale/http_repo.py:169-174 | the loop learns exactly the listed names and keeps the other entries |
| `TailnetRepository.Repository.TailnetId` | ionscale/http_repo.py:140-149 | the cached id, or the listed one, or nothing |
| `TailnetRepository.Repository.TailnetCall` | ionscale/http_repo.py:154-167 | the call, its eviction and its retry are the specified call |
| `TailnetRepository.Repository.CreateTailnetHere` | ionscale/http_repo.py:176-183 | creates on the server and remembers the id |
| `TailnetRepository.Repository.GetTailnetByOrganization` | ionscale/http_repo.py:185-207 | the tailnet bound to the organization, remembered |
| `TailnetRepository.Repository.UpdateTailnetHere` | ionscale/http_repo.py:209-220 | renames what a fresh lookup would, and the cache stays right |
| `TailnetRepository.Repository.DeleteTailnetHere` | ionscale/http_repo.py:222-226 | exactly the tailnet bearing the name goes, all others stay, the name is forgotten and the cache stays right |
| `Reconcile.SettledOutcome` | ionscale/reconcile.py:66-99 | creating or renaming ends without a warning exactly when the name is free; then the tailnet is bound, named, keeps policy and users, and no other changed |
| `Reconcile.CleanExactlyWhen` | ionscale/reconcile.py:40-143 | a run ends without warnings exactly when the name is free on the server, no other layer has it as tailnet name or identifier and, to revoke, all users have external ids |
| `Reconcile.Converges` | ionscale/reconcile.py:40-143 | the whole world such a run leaves |
| `Reconcile.FullMembersAre` | ionscale/manager.py:193-211 | the listed subjects are exactly the users with a membership without grants |
| `Reconcile.RunIsInLine` | ionscale/reconcile.py:40-143 | said of the world: tailnet bound and named, layer following, `subs` replaced, every other policy key, tailnet and layer as before, orphans gone when asked |
| `Reconcile.InLine` | ionscale/manager.py:175-214 | the same with `subs` exactly the organization's full members |
| `Reconcile.SecondRunIsQuiet` | ionscale/reconcile.py:40-143 | a second run changes nothing and reports no change and no warning |
| `Reconcile.DryRunPredicts` | ionscale/reconcile.py:66-99 | a dry run reports the creation and the rename of the real run |
| `Reconcile.ReportMeans` | ionscale/reconcile.py:25-38 | when a report says created, renamed from which name, revoked whom, and changed |
| `Reconcile.OnlyMembersAre` | ionscale/reconcile.py:123-141 | exactly the users with a member's external id stay |
| `Reconcile.OrphansGone` | ionscale/reconcile.py:123-141 | with all external ids known, revoking leaves exactly the users who are members |
| `Reconciler.MeshReconciler.EnsureTailnet` | ionscale/reconcile.py:66-86 | the tailnet found or created through the caching client |
| `Reconciler.MeshReconciler.RenameTailnet` | ionscale/reconcile.py:88-99 | the tailnet renamed, or the warning |
| `Reconciler.MeshReconciler.FollowName` | ionscale/reconcile.py:101-113 | the layer row follows the name unless another layer has it as tailnet name or identifier |
| `Reconciler.MeshReconciler.Sync` | ionscale/manager.py:175-214 | the policy read, its `subs` replaced and written back |
| `Reconciler.MeshReconciler.RevokeOrphans` | ionscale/reconcile.py:123-141 | the loop revokes exactly the non-members up to the first user without an external id |
| `Reconciler.MeshReconciler.ListFullMembers` | ionscale/manager.py:193-211 | the query lists the full members by membership id |
| `Reconciler.MeshReconciler.ReconcileLayer` | ionscale/reconcile.py:40-143 | a run for the full members of the organization is the specified one; a dry run changes nothing |
| `Acl.BuildReach` | ionscale/acl.py:54-75 | the loops over enrollments and hubs collect exactly the tags that may reach each hub |
| `Acl.BuildAclPolicy` | ionscale/acl.py:42-91 | an app tag reaches a hub tag if and only if it is meant to; no hub is a source, no app a destination, each hub has one entry at most; the first entry links the members and the organization's machines |
| `Acl.ReachExactly` | ionscale/acl.py:54-78 | tags determine enrollments and hubs, so the entries allow exactly the specified reach |
| `Acl.MayReachExactlyWhen` | ionscale/acl.py:55-75 | by the rows: key, live client of membership, app and device bound to the hub, and for a guest a live mesh grant on an instance of it |
| `Acl.TagsAre` | ionscale/acl.py:31-39 | how the tags and ports of the entries are written |
| `Acl.SidecarsAreOneWay` | ionscale/acl.py:77-78 | sidecar entries are one way and one per hub |
| `Slugs.PatternIsCanonical` | karakter/slugs.py:18-18 | the pattern matches exactly lowercase letters and digits separated by single hyphens |
| `Slugs.SlugifyOutcome` | karakter/slugs.py:24-34 | a name becomes empty or canonical with the name's words, the runs of its letters and digits, in order; empty exactly when it has none |
| `Slugs.SlugifyKeepsCanonical` | karakter/slugs.py:24-34 | the identity on canonical slugs |
| `Slugs.ValidatesExactly` | karakter/slugs.py:47-66 | exactly what is accepted: canonical, or canonical with a final newline; of derived slugs those not empty |
| `Slugs.NewlineIsAccepted` | karakter/slugs.py:47-66 | a slug with a final newline is accepted although not canonical |
| `Slugs.OneFewerLeft` | karakter/slugs.py:90-93 | each taken number hits a slug no smaller number hit |
| `Slugs.FirstFreeNumber` | karakter/slugs.py:90-93 | the loop ends for every finite set of slugs, at the first free number, within one more than there are slugs |
| `Slugs.SuggestSlug` | karakter/slugs.py:78-93 | the first free of the three prefixed and then the numbered candidates, canonical whenever the slug is |
| `Throttle.CallerCannotChoose` | authapp/throttle.py:26-52 | with as many trusted proxies as configured the address is the one the outermost saw, whatever the caller sent |
| `Throttle.WithoutAHeader` | authapp/throttle.py:26-52 | also when the caller sent no header |
| `Throttle.PeerAddress` | authapp/throttle.py:40-51 | without trusted proxies, or with fewer entries than proxies, the peer's address whatever the header |
| `Throttle.SplitIs` | authapp/throttle.py:47-47 | splitting gives parts without commas that make up the header again |
| `Throttle.StrippedAre` | authapp/throttle.py:47-47 | exactly the parts that are not blank count |
| `Throttle.WindowLimit` | authapp/throttle.py:55-62 | a request is let through exactly when it is among the first max(1, limit) of its window, and so many have been by then |
| `Throttle.WindowIs` | authapp/throttle.py:55-62 | a window lasts 60 s from its first request, which is let through; of the later ones those within the limit |
| `Throttle.AnySpanLimit` | authapp/throttle.py:55-62 | in any closed span of 60 s at most 2 * max(1, limit) are let through |
| `Throttle.TwiceTheLimitIsReached` | authapp/throttle.py:55-62 | the bound is reached for every limit |
| `Throttle.Cache.IsThrottled` | authapp/throttle.py:55-62 | `add` and `incr` on the cache count one request under its key and no other |
| `Throttle.Cache.Serve` | authapp/throttle.py:55-62 | over any run of calls under any keys each key is counted as if alone |
| `Throttle.AnyKeyAnySpanLimit` | authapp/throttle.py:55-62 | among any requests, those of one key answered in any closed span of 60 s are at most 2 * max(1, limit) |

## Left out

- Concurrency outside the code exchange: a redemption, a refresh, an authorization request and a reconciliation are each one step. Two authorization requests whose nonce checks both precede either save are not modelled, nor are concurrent refreshes of one token, where the code takes no lock.
- OrganizationStore.Organization.DeleteInstance: the rows of the cascade go in the order grants, roles, instance; the receivers see each step's result rather than one batch.
- `str.lower` and the database's case folding are parameters of `Slugify` and `SuggestSlug`; of the folding only that it goes by character and leaves digits alone is used.
- Deletion of organizations, also by deleting their owner; muted notifications; and the `accepted_by` and `responded_at` columns of invites and requests.
- `RoleRequest.approve` beyond adding the role (`AddRoles`), `decline` of requests, and the limit of 50 collaborations per stored invite.
- PKCE, scopes, redirect URIs and the JWT contents; a check that fails between query and delete is a `Fail` step.
- Revoking what a leaked client issued, mesh reaping, and the device-code grant's polling.
- Errors of an unreachable ionscale, the fallback of `sync` when a policy cannot be read for such an error, DNS configuration, machines, keys and tailnet locks; `replace_org_mesh` and `ensure_org_mesh`.
- `on_commit` coalescing of policy rewrites; the fixed SSH rule of the policy.
- The cache backend failing (the throttle then lets requests through) and the composition of its key.
- Mandate issuing and revoking, client binding, hub services, GraphQL, HTTP views, settings and migrations.
