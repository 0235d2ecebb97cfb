# Taksees roster, guards and file store: a Dafny model

This project models the parts of the Taksees backend whose behaviour is more than a lookup, and proves what a
caller, an administrator or a maintainer relies on.

**The roster as a concurrent system.** `Tables` holds the users, classes, members and servant mappings with the
keys and foreign keys of the schema, and one atomic write per statement the repositories issue. `Machine` turns
every service call and every tenant-guard request into a sequence of steps on those tables, one step per store
call, with the locals a call has gathered in between; any number of calls interleave in any order, and new users may
sign up at any moment. `Linearisation` and `Accounting` prove that `assign`, `unassign` and class deletion are a
sequential history of atomic operations that respects real time, and count every row. `Access` proves exactly what
the tenant guard answers while other calls run, and what no run can undo. `Serving` states what each call does when
nothing overlaps it and proves that a call running alone in the machine does exactly that; `Outcomes` derives the
error surface and what repeating and undoing a call does, `Effects` what each call but the bulk add promises its
caller, and `Bulk` what the bulk add does. `Races` gives the exact error surface under interference, `Causes` the
rival call behind each error that a lone call would not meet, and `Serialisation` what stays of the sequential
specifications when calls do overlap. `Services` writes the repositories, services and guards as objects with loops and early returns,
and proves each method against `Serving` and `Effects`. `Guards` joins the role guard to the tenant guard.

**The file store.** `Paths` is POSIX lexical path handling (section 4.13 of POSIX.1-2017 Base Definitions), `Storage`
the key checks, a small directory tree, the service object over it, and the refinement to a map.

**Phones, pages and arguments.** `Phones` is the canonicaliser to ITU-T E.164 (at most 15 digits, section 6.1 of
ITU-T E.164), `Ordering` and `Listing` the sorted and paged list queries, `Argv` the scanner of the
super-admin script. `Text` is the ECMAScript white space that `trim` and `\s` share.

Generated ids and the clock are parameters; generated ids are new. Request bodies have passed their schemas. The
foreign keys to the users table are a switch (`Db.userKeys`), because the schema declares them and a migration drops
them: everything holds for both settings.

Where comments and code differ the model follows the code:

- Deleting a class does not cascade to members; it is refused while the class has any (`DeleteClassRestricts`).
- The `items` of a bulk add are the first rows of the sorted roster (`BulkReturnsRosterPrefix`). They are the new rows
  exactly when the class had no members, or no row was skipped and all of them sort before the older members
  (`BulkReturnsCreatedExactly`); a call can return none of the members it created (`BulkReturnsOthers`).
- The tenant guard's bypass compares with the exact string `SUPER_ADMIN`; the role guard normalises spelling. The
  `super_admin` that the script writes passes one and not the other (`ScriptAdminNeedsAccess`), and the session
  fallback of the role guard never gets through the chain (`FallbackStopsAtTenantGuard`).
- A run of two or more leading zeros is not a trunk prefix (`LeadingZeros`).
- `--dry-run` has no effect: the flag the script tests is false for every command line (`Argv.ParseArgs`).
- A guard admission is always justified, but a user with access throughout is refused exactly when mapped and not
  leading at the first read, and leading and not mapped at the second (`ContinuousAccessRefusedExactly`); it happens
  (`ContinuousAccessMayBeRefused`).
- A storage key that normalises to the root, such as `.`, is accepted. Exactly a put under such a key while the root
  does not exist makes the root a file, and exactly a delete under such a key undoes it (`RootBecomesFileExactly`);
  until then no name can be put (`FileRootRefusesNames`, `DotBlocksFreshStore`).

## Model

| member | source | states |
|---|---|---|
| Linearisation.RunsLinearise | src/modules/classes/services/servant-class.service.ts:31-74 | every interleaving ends with the roster that the sequential history of its linearisation points gives, and every answer in that history is right at its place |
| Linearisation.AssignLinearises | src/modules/classes/services/servant-class.service.ts:42-64 | each element of a completed assign is one atomic insert-if-absent at exactly one instant, and the two returned counts are the numbers that found the row absent and present, summing to the list length |
| Linearisation.InstantIsAtomic | src/modules/classes/services/servant-class.service.ts:42-52 | at its instant an element answers whether the row is absent and leaves it present, for the right servant and class |
| Linearisation.UnassignLinearises | src/modules/classes/services/servant-class.service.ts:67-74 | a completed unassign is one atomic remove-if-present at exactly one step of its own: its check if the row is absent there, its delete otherwise |
| Linearisation.ClassDeletionLinearises | src/modules/classes/services/class.service.ts:50-53 | a completed class deletion removes the class and exactly the mappings it has at one step of its own, and acts at no other |
| Linearisation.ThrownCallsPerformNothing | src/modules/classes/services/servant-class.service.ts:67-74 | an unassign or class deletion that throws has changed the mapping table at no step |
| Linearisation.InstantInsideCall | src/modules/classes/services/servant-class.service.ts:31-74 | every operation of every call, insert, delete or class deletion, takes effect at a step of that call, strictly between its beginning and its end |
| Linearisation.RealTimeOrder | src/modules/classes/services/servant-class.service.ts:31-74 | of any two calls of any kind, one finished before the other began, all operations of the first come before all of the second in the history |
| Linearisation.TurnPlays | src/modules/classes/repositories/prisma-servant-class.repository.ts:9-24 | one step changes the mapping table exactly as its operation does, and not at all if it has none |
| Linearisation.RunTally | src/modules/classes/services/servant-class.service.ts:44-63 | the counters of every assign, finished, in flight or aborted, agree at every instant with the operations it has performed |
| Accounting.RowsConserved | src/modules/classes/services/servant-class.service.ts:44-73 | mapping rows now = initial rows + all assigned counters − rows unassigned − rows cascaded, in every reachable state |
| Accounting.OverlappingAssignsUnion | src/modules/classes/services/servant-class.service.ts:46-64 | when only assigns on one class overlap and all complete, the roster is the old one with every requested servant added |
| Accounting.OverlappingAssignsSum | src/modules/classes/services/servant-class.service.ts:46-64 | their assigned counts sum to the distinct requested servants not mapped at the start, and each call's counts sum to its list length, whatever the schedule |
| Accounting.InsertAbortsExactly | src/modules/classes/services/servant-class.service.ts:51-62 | an insert aborts an assign exactly when the class has been deleted meanwhile, and then with P2003 |
| Accounting.EachRowAccounted | prisma/schema.prisma:160-171 | presence of a mapping at the end = presence at the start + inserts that created it − unassigns and cascades that removed it |
| Accounting.UnassignDeletes | src/modules/classes/services/servant-class.service.ts:67-74 | the delete of an unassign fails with P2025 exactly when the row is absent at that instant, and otherwise removes that row only |
| Accounting.LostRowWasTaken | src/modules/classes/services/servant-class.service.ts:67-74 | a mapping present at one instant and absent later was removed in between by a successful unassign or a class deletion |
| Accounting.UnassignRace | src/modules/classes/services/servant-class.service.ts:69-73 | an unassign that saw the row and then fails lost it to another step between its check and its delete |
| Access.AdmissionWasJustified | src/common/guards/class-tenant.guard.ts:54-84 | an admitted ordinary user had access, as leader or servant of the existing class, at one of the guard's own reads, whatever ran between them |
| Access.FrozenGuardIsExact | src/common/guards/class-tenant.guard.ts:62-84 | while the rows the guard reads do not change, it admits if and only if the user has access |
| Access.GuardDecidesByItsReads | src/common/guards/class-tenant.guard.ts:62-84 | the exact answer to every finished request in every run: absence of the class or leadership at the first read decides, otherwise the mapping at the later second read |
| Access.ContinuousAccessRefusedExactly | src/common/guards/class-tenant.guard.ts:62-84 | a user with access at every instant is refused if and only if mapped but not leading at the first read, and leading but not mapped at the second |
| Access.SteadyAccessAdmitted | src/common/guards/class-tenant.guard.ts:62-84 | a user who leads throughout, or is mapped throughout, is never refused |
| Access.ContinuousAccessMayBeRefused | src/common/guards/class-tenant.guard.ts:62-81 | the refusing case of ContinuousAccessRefusedExactly occurs: a complete run of service calls that reaches it |
| Access.MembersArePermanent | src/modules/classes/repositories/prisma-member.repository.ts:72-87 | no run removes a member, moves it to another class or changes its user |
| Access.ClassWithMemberIsPermanent | src/modules/classes/services/class.service.ts:50-53 | a class that ever had a member exists in every later state, and every delete of it fails with P2003 and changes nothing |
| Access.DeletedStaysDeleted | src/modules/classes/repositories/prisma-class.repository.ts:59-61 | a deleted class id never comes back |
| Access.DeletedClassAdmitsNobody | src/common/guards/class-tenant.guard.ts:62-81 | once a class is deleted the guard admits no ordinary user for it, not even a request already under way |
| Access.MemberUpdatesNeverFail | src/modules/classes/services/member.service.ts:77-97 | no interleaving makes a member update or activation fail on the store |
| Access.RunKeepsUsers | src/modules/classes/services/class.service.ts:34-48 | every leader and mapped servant is a known user in every run, with or without the users foreign keys |
| Access.StoredPhonesReadBack | src/modules/classes/domain/entities/member.entity.ts:16-24 | in every reachable state each stored phone is null or canonical, and reading a row never throws and returns what is stored |
| Access.AccessChangesOnlyWhereNamed | src/common/guards/class-tenant.guard.ts:62-81 | a step of any call changes tenant access for no class but the one the call names or creates |
| Machine.RunConsistent | prisma/schema.prisma:129-171 | primary keys, unique columns and foreign keys of the roster tables hold at every instant of every run |
| Machine.StepFits | src/modules/classes/services/servant-class.service.ts:31-64 | the locals of every call keep agreeing with its request and with what its earlier reads established |
| Machine.NoneUnknown | src/modules/classes/services/servant-class.service.ts:34-39 | the reported missing id is the first unknown one of the list, and none is reported exactly when all are known |
| Machine.HeaderNamesId | src/common/guards/class-tenant.guard.ts:49-52 | a header names the id between its white space, listed character by character; a blank or absent header names none |
| Serving.SoloCallServes | src/modules/classes/services/servant-class.service.ts:31-74 | a call that runs alone, whatever the order of its pre-reads, ends with exactly the state and answer its specification gives |
| Serving.AskedMembers | src/modules/classes/services/servant-class.service.ts:31-42 | the rows an assign asks for are those of the class and the listed ids |
| Outcomes.StoreErrorsExactly | src/modules/classes/services/class.service.ts:34-53 | without overlap a call fails on the store exactly with P2002 on a taken leader, P2002 on a taken member user, or P2003 on deleting a class with members, and never otherwise |
| Outcomes.StoreErrorsOverRuns | src/modules/classes/services/class.service.ts:34-53 | the same for the last call of any run of calls one after another, whose tables stay consistent and readable |
| Outcomes.ServeKeeps | src/modules/classes/services/member.service.ts:45-97 | every call keeps the tables consistent and all stored phones canonical |
| Outcomes.UnassignIdempotent | src/modules/classes/services/servant-class.service.ts:67-74 | unassign removes the row, and repeating it changes nothing and succeeds |
| Outcomes.AssignRepeats | src/modules/classes/services/servant-class.service.ts:42-64 | repeating an assign assigns nobody and reports everyone as already assigned |
| Outcomes.UnassignUndoesAssign | src/modules/classes/services/servant-class.service.ts:31-74 | unassigning the one servant an assign added restores the tables |
| Bulk.BulkValidatesFirst | src/modules/classes/services/member.service.ts:63-70 | a bulk add throws exactly when some phone is invalid, and then has written nothing |
| Bulk.BulkCountedExactly | src/modules/classes/services/member.service.ts:70-74 | created = rows without a user + distinct named users who are members nowhere, and the roster grows by exactly that |
| Bulk.BulkReturnsRosterPrefix | src/modules/classes/services/member.service.ts:71-74 | the returned items are the prefix of the sorted roster of length min(batch size, roster size) |
| Bulk.BulkReturnsCreatedExactly | src/modules/classes/services/member.service.ts:59-75 | the returned items are exactly the created members if and only if the class had no members, or no row is skipped and every row sorts before every older member, told from the tables and the batch before the call |
| Bulk.AddBulkKeepsPromise | src/modules/classes/services/member.service.ts:59-75 | each answer of a bulk add with its exact condition, the first bad phone being reported; nothing is written on failure, and otherwise exactly the rows that are not skipped go in as given, the count and growth are theirs, and the items are the first page of the member list |
| Bulk.BulkReturnsOthers | src/modules/classes/services/member.service.ts:71-74 | the other case occurs: a call that creates one member and returns only another |
| Effects.AddKeepsPromise | src/modules/classes/services/member.service.ts:45-57 | each answer of a member add with its exact condition, a bad phone being reported as given; the new row reads back as given, active, with the canonical phone, and no other row changes |
| Effects.ChangeMemberKeepsPromise | src/modules/classes/services/member.service.ts:77-92 | each answer of a member update with its exact condition; exactly the given fields of that row change, and repeating the call changes nothing and answers the same |
| Effects.SetActiveKeepsPromise | src/modules/classes/services/member.service.ts:94-97 | fails exactly on a missing member; only the flag of that row changes, every roster stays, the last of several calls decides, and setting the flag back restores the tables |
| Outcomes.DeleteUndoesCreate | src/modules/classes/services/class.service.ts:34-53 | creating a class for a free known leader adds that row, and deleting it restores every table |
| Effects.AssignKeepsPromise | src/modules/classes/services/servant-class.service.ts:31-65 | each answer of an assign with its exact condition, the reported id being the first unknown one; every listed user gets access and nobody else a row, the count is the growth of the table, repeating assigns nobody |
| Effects.UnassignKeepsPromise | src/modules/classes/services/servant-class.service.ts:67-74 | fails exactly on a missing class; afterwards the user has access as leader or not at all, nothing else changes, and repeating it changes nothing |
| Effects.CreateKeepsPromise | src/modules/classes/services/class.service.ts:34-39 | each answer of a class creation with its exact condition; the new class is open to its leader and nobody else, and deleting it takes everything back |
| Effects.ChangeKeepsPromise | src/modules/classes/services/class.service.ts:41-48 | each answer of a class update with its exact condition; only the given fields of that row change, access follows the leader, leaders stay unique |
| Effects.DeleteKeepsPromise | src/modules/classes/services/class.service.ts:50-53 | each answer of a class deletion with its exact condition; just the class and its mappings go, and with them all access to it |
| Races.WriteStepFailsExactly | src/modules/classes/services/servant-class.service.ts:51-73 | in every interleaving, the write step of any call fails with a store error if and only if a stated condition on its request and the tables at that instant holds |
| Races.StoreErrorsComeFromWrites | src/modules/classes/services/class.service.ts:34-53 | every store error a caller sees in any run came from a write step of that call at which that condition held |
| Races.ExtraErrorsNeedInterference | src/modules/classes/services/class.service.ts:34-53 | a store error that the call would not meet on the tables it began with takes a step of somebody else, between its beginning and its write, that changes the tables |
| Causes.MissingClassWasDeleted | src/modules/classes/services/servant-class.service.ts:31-73 | a call that finds its class gone at its write lost it to a completed deletion of that class by another call after its own check |
| Causes.LeaderTakenByAnother | src/modules/classes/services/class.service.ts:34-48 | a leader free at the beginning and taken at the write was taken by another call that asked for the same leader |
| Causes.UserTakenByAnother | src/modules/classes/services/member.service.ts:45-57 | a user free at the beginning of a member add and taken at its write was added by another call |
| Causes.RosterFilledByAnother | src/modules/classes/services/class.service.ts:50-53 | a class deletion that began while the class had no members and finds some at its write was overtaken by another call adding members to that class |
| Causes.MappingTakenByAnother | src/modules/classes/services/servant-class.service.ts:67-74 | an unassign that finds its row gone at its delete lost it to another call, an unassign of the same mapping or a deletion of the class |
| Causes.ExtraErrorHasRival | src/modules/classes/services/class.service.ts:34-53 | every store error that a call would not have met on the tables it began with has a rival: a step of another call, between its first step and its write, whose request asks for exactly what stands in the way |
| Serialisation.WriteStepServes | src/modules/classes/services/class.service.ts:34-53 | in every run, a call that writes once and does not fail on the store does at its write exactly what its sequential specification does on the tables of that instant, in state and answer |
| Serialisation.FailedAssignLeavesNothing | src/modules/classes/services/servant-class.service.ts:31-65 | assign is all or nothing in every interleaving: of one that throws nothing is left at the end, it has put nothing in or its class and every mapping of it are gone |
| Serialisation.BulkReportsItsInstants | src/modules/classes/services/member.service.ts:59-75 | in every run a completed bulk add counts exactly at its write step, where the roster grows by that count, and returns the prefix of the sorted roster at its later refetch |
| Tables.WriteKeepsConsistent | prisma/schema.prisma:129-171 | every write keeps every key, unique column and foreign key, whether it succeeds or fails |
| Tables.DeleteClassRestricts | prisma/schema.prisma:144-171 | a class delete succeeds exactly on a class without members, and removes just the class and its mappings |
| Tables.InsertAllRows | src/modules/classes/repositories/prisma-member.repository.ts:61-70 | a bulk insert leaves old rows alone and adds only rows of the batch |
| Tables.InsertAllCount | src/modules/classes/repositories/prisma-member.repository.ts:61-70 | its count is the rows without a user plus the distinct users not yet members |
| Tables.InsertAllUnique | prisma/schema.prisma:144-158 | skipping duplicates keeps member users unique |
| Tables.FirstGoesIn | src/modules/classes/repositories/prisma-member.repository.ts:61-70 | of the rows with one user exactly the first goes in, if the user is not a member already, and it goes in as it is; rows without a user all go in |
| Tables.MembersStay | src/modules/classes/repositories/prisma-member.repository.ts:49-87 | no write removes a member or changes its class or user |
| Tables.GoneClassesStayGone | prisma/schema.prisma:129-142 | no write brings back a class id that was issued and deleted |
| Tables.WriteKeepsPhones | src/modules/classes/repositories/prisma-member.repository.ts:49-79 | writes of canonical phones keep all stored phones canonical |
| Entities.CanonicalRowReads | src/modules/classes/domain/entities/member.entity.ts:16-27 | a row with a canonical or null phone reads back field by field |
| Entities.RowsForAll | src/modules/classes/services/member.service.ts:64-69 | a batch becomes rows exactly when each input does, row by row, and otherwise fails on a phone |
| Entities.FirstInvalidReported | src/modules/classes/services/member.service.ts:64-69 | a batch is refused exactly for an invalid phone, and with the first of them |
| Guards.ChainExactly | src/common/guards/roles.guard.ts:80-91 | both guards admit exactly when the normalised role is required, the header names the class, and the raw role is SUPER_ADMIN or the user leads or is mapped to the class |
| Guards.RolesKeepPromise | src/common/guards/roles.guard.ts:45-92 | exactly who passes the role guard; an identified attached user makes the session irrelevant, wider requirements shut nobody out, upper and lower case do not matter |
| Guards.RoleSpellings | src/common/guards/roles.guard.ts:101-108 | the three privileged roles are exactly their lower-case spellings, and everything else is a member |
| Guards.StoredRoles | src/common/guards/roles.guard.ts:101-108 | each of the four roles is recognised in its upper-case and its lower-case spelling, and no role at all is a member |
| Guards.LowerLetters | src/common/guards/roles.guard.ts:102 | lower-casing turns A to Z into a to z, letter by letter, and leaves every other character |
| Guards.TenantKeepsPromise | src/common/guards/class-tenant.guard.ts:39-85 | each answer of the tenant guard on a store at rest with its exact condition: the role spelled SUPER_ADMIN enters every class named, any other needs the class and to lead it or be mapped to it |
| Guards.LiteralRoleEnters | src/common/guards/class-tenant.guard.ts:54-58 | among running calls a request with the role SUPER_ADMIN is admitted at its first step, whatever the tables hold |
| Guards.OtherRolesNeedAccess | src/common/guards/class-tenant.guard.ts:60-84 | a request with any other role, while the rows it reads stay as they are, is admitted if and only if the user has access |
| Guards.OtherSpellingsDoNotBypass | src/common/guards/class-tenant.guard.ts:54-58 | among super-admin spellings exactly the literal SUPER_ADMIN is admitted to every class; the others need access |
| Guards.ScriptAdminNeedsAccess | scripts/create-super-admin.ts:100-103 | a user with the role the script writes passes the role guard as super admin and gets into a class only as its leader or a mapped servant |
| Guards.RoleCaseIgnored | src/common/guards/roles.guard.ts:101-108 | role names are compared without regard to case |
| Guards.CallChangesOneClass | src/common/guards/class-tenant.guard.ts:62-81 | a whole service call changes tenant access for the one class it names only |
| Services.ServantClassService.Assign | src/modules/classes/services/servant-class.service.ts:31-65 | as in Serving, and so: fails exactly on a missing class or an unknown user, of whom it reports the first, and then changes nothing; otherwise maps every listed user, and the counts are the growth of the table and the rest |
| Services.ServantClassService.FindMissing | src/modules/classes/services/servant-class.service.ts:34-39 | the requested id that is no user and before which all are, or none if all are users |
| Services.ServantClassService.PreRead | src/modules/classes/services/servant-class.service.ts:41-42 | one answer per id, true exactly when the mapping is there |
| Services.ServantClassService.Unassign | src/modules/classes/services/servant-class.service.ts:67-74 | as in Serving, and so: completes on every existing class, leaves the user access as leader only, changes nothing else, and repeating it changes nothing |
| Services.ServantClassService.List | src/modules/classes/services/servant-class.service.ts:26-29 | exactly the servants mapped to an existing class |
| Services.ClassService.Create | src/modules/classes/services/class.service.ts:34-39 | as in Serving, and so: succeeds exactly for a known user who leads no class, opens the new class to that user alone, and deleting it restores every table |
| Services.ClassService.Update | src/modules/classes/services/class.service.ts:41-48 | as in Serving, and so: fails exactly on a missing class, an unknown leader or one of another class; changes the given fields of one row and keeps leaders unique |
| Services.ClassService.Delete | src/modules/classes/services/class.service.ts:50-53 | as in Serving, and so: completes exactly on a class without members, and then nobody has access to it and only it and its mappings are gone |
| Services.ClassService.GetById | src/modules/classes/services/class.service.ts:28-32 | the row, or class-not-found |
| Services.MemberService.AddOne | src/modules/classes/services/member.service.ts:45-57 | as in Serving, and so: fails exactly on a missing class, a bad phone or a taken user; the new row reads back as given with the canonical phone |
| Services.MemberService.AddBulk | src/modules/classes/services/member.service.ts:59-75 | as in Serving, and so: fails exactly on a missing class or a bad phone, of which it reports the first, and then writes nothing; otherwise the rows not skipped go in, the count is exact and the items are the first page of the member list |
| Services.MemberService.Update | src/modules/classes/services/member.service.ts:77-92 | as in Serving, and so: fails exactly on a missing member or a bad phone; changes exactly the given fields, and repeating it changes nothing |
| Services.MemberService.SetActive | src/modules/classes/services/member.service.ts:94-97 | as in Serving, and so: fails exactly on a missing member; sets one flag of one row, keeps every roster, and setting the flag back restores the tables |
| Services.MemberService.GetById | src/modules/classes/services/member.service.ts:39-43 | the entity read back, or member-not-found |
| Services.MemberService.List | src/modules/classes/services/member.service.ts:30-37 | for an existing class the wanted members, by flag and name, with the total; on each page the members whose rank among the wanted ones is the page's, active ones first and then by name |
| Services.PrismaMemberRepository.Update | src/modules/classes/repositories/prisma-member.repository.ts:72-79 | filling the update object field by field amounts to the patch |
| Services.PrismaMemberRepository.ListByClass | src/modules/classes/repositories/prisma-member.repository.ts:22-47 | the requested page of the wanted members, active ones first and then by name, each as stored, and how many are wanted |
| Services.PrismaClassRepository.List | src/modules/classes/repositories/prisma-class.repository.ts:27-47 | the requested page of the classes of the wanted level and leader, newest first, and how many there are |
| Services.PrismaUserDirectory.ExistsMany | src/modules/classes/repositories/prisma-user-directory.ts:23-30 | exactly the requested ids that are users |
| Services.PrismaServantClassRepository.ListByClass | src/modules/classes/repositories/prisma-servant-class.repository.ts:26-33 | exactly the servants mapped to the class |
| Services.ClassTenantGuard.CanActivate | src/common/guards/class-tenant.guard.ts:39-85 | each answer with its exact condition on a store at rest, SUPER_ADMIN written out, and the active class set exactly on admission |
| Services.RolesGuard.CanActivate | src/common/guards/roles.guard.ts:45-92 | passes exactly an identified attached user, or failing that session user, whose role is required; the session never overrides an attached user and case is ignored |
| Ordering.Sort | src/modules/classes/repositories/prisma-member.repository.ts:34-39 | sorting yields the one ascending listing of the rows |
| Ordering.SortedUnique | src/modules/classes/repositories/prisma-class.repository.ts:34-39 | a set has exactly one ascending listing under a total order |
| Ordering.LexMeans | src/modules/classes/repositories/prisma-member.repository.ts:36 | the order of names is that of the first differing character, a proper prefix first |
| Ordering.PageHasRanks | src/modules/classes/repositories/prisma-class.repository.ts:37-38 | a page holds the rows that as many wanted rows come before as the pages before it hold, and is full unless the rows end, with no mention of sorting |
| Ordering.PagesPartition | src/modules/classes/repositories/prisma-class.repository.ts:33-41 | pages 1 to ceil(total / limit) in order are the whole listing, and later pages are empty |
| Ordering.EachRowOnOnePage | src/modules/classes/repositories/prisma-class.repository.ts:37-38 | the row at index i is on page i / limit + 1 and on no other |
| Listing.MemberPagesPartition | src/modules/classes/repositories/prisma-member.repository.ts:27-41 | for every filter and limit the pages partition the filtered, sorted members |
| Listing.ClassPagesPartition | src/modules/classes/repositories/prisma-class.repository.ts:27-41 | for every filter and limit the pages partition the filtered, sorted classes |
| Listing.KeyMeans | src/modules/classes/repositories/prisma-member.repository.ts:36 | a member stands before another exactly if active and the other is not, or with equal flags by name, or with equal names by id |
| Listing.MemberListKeepsPromise | src/modules/classes/repositories/prisma-member.repository.ts:22-47 | every page of the member list holds the wanted members by rank, each read as stored, no soft-deleted one before an active one, names ascending among equals |
| Listing.ClassListKeepsPromise | src/modules/classes/repositories/prisma-class.repository.ts:27-47 | every page of the class list holds the classes of the wanted level and leader by rank, newest first |
| Listing.LeaderFilterIsUnique | prisma/schema.prisma:133 | a leader filter selects at most one class |
| Phones.Parse | src/modules/classes/domain/value-objects/phone.vo.ts:23-47 | an accepted phone is a plus sign and 7 to 15 digits, the first not zero; a rejection carries the input |
| Phones.AcceptedShape | src/modules/classes/domain/value-objects/phone.vo.ts:17 | an accepted phone is 8 to 16 characters, a plus sign and digits, the first not zero, said with literal digits |
| Phones.CanonicalIsFixed | src/modules/classes/domain/value-objects/phone.vo.ts:17-47 | a canonical number parses to itself under every default country code |
| Phones.ParseIdempotent | src/modules/classes/domain/value-objects/phone.vo.ts:23-47 | parsing an accepted result again, under any code, returns it unchanged |
| Phones.FormattingIgnored | src/modules/classes/domain/value-objects/phone.vo.ts:28-29 | inserting or removing formatting anywhere in a non-blank input never changes the outcome |
| Phones.EachFormattingIgnored | src/modules/classes/domain/value-objects/phone.vo.ts:29 | each of the formatting characters, listed one by one, may be put in or taken out anywhere of a non-blank input |
| Phones.StrangeCharacterRejected | src/modules/classes/domain/value-objects/phone.vo.ts:29-43 | any character that is no digit, no plus sign and not in that list makes every input invalid |
| Phones.InnerPlusRejected | src/modules/classes/domain/value-objects/phone.vo.ts:32-43 | a plus sign after anything but formatting makes the input invalid |
| Phones.BlankRejected | src/modules/classes/domain/value-objects/phone.vo.ts:24-26 | an input of white space only is rejected |
| Phones.FormattingDecides | src/modules/classes/domain/value-objects/phone.vo.ts:24-29 | inputs differing only in formatting agree unless exactly one is blank and the default code is itself a complete number |
| Phones.DefaultCodeFormattingIgnored | src/modules/classes/domain/value-objects/phone.vo.ts:23-29 | with the built-in default code they always agree |
| Phones.LeadingZeros | src/modules/classes/domain/value-objects/phone.vo.ts:32-40 | none or one leading zero means local, two mean international without the code, more are rejected |
| Phones.OnlyZeros | src/modules/classes/domain/value-objects/phone.vo.ts:32-43 | one zero alone is the country code itself, more are rejected |
| Phones.PlusNumbersExactly | src/modules/classes/domain/value-objects/phone.vo.ts:37-46 | of the numbers written with a plus sign exactly those of 7 to 15 digits not beginning with zero are accepted, as they stand |
| Phones.LocalNumbersAreEgyptian | src/modules/classes/domain/value-objects/phone.vo.ts:23-46 | without a country code a local number of 5 to 13 digits is +20 and its digits, with or without its trunk zero, and any other length is rejected |
| Phones.SpellingsAgree | src/modules/classes/domain/value-objects/phone.vo.ts:28-46 | the plain, 0-, 00- and +-spellings of a number are the same phone or all rejected |
| Text.TrimEmptyIffBlank | src/modules/classes/domain/value-objects/phone.vo.ts:24 | trimming leaves nothing exactly for blank text |
| Text.TrimSplits | src/common/guards/class-tenant.guard.ts:49 | trimming cuts exactly the white space at both ends |
| Text.TrimPadded | src/common/guards/class-tenant.guard.ts:49 | text between white space, listed character by character, is what trimming leaves |
| Text.WhiteCharacters | src/modules/classes/domain/value-objects/phone.vo.ts:24-29 | white space is the 25 listed characters |
| Storage.AcceptedExactly | src/infrastructure/storage/local-storage.service.ts:38-54 | below any root but `/`, a key resolves exactly when it is non-empty, NUL-free, starts with no slash or backslash and no prefix leaves more directories than it entered; then to the root plus plain names; the second prefix test never fires |
| Storage.SlashRootAcceptsOnlyItself | src/infrastructure/storage/local-storage.service.ts:49-53 | with root `/` the second test rejects exactly the acceptable keys that name anything |
| Storage.LexicalTest | src/infrastructure/storage/local-storage.service.ts:45-48 | the test on the normalised text fires exactly when some prefix of the key escapes |
| Storage.ResolvedLocation | src/infrastructure/storage/local-storage.service.ts:45-49 | a key that stays inside resolves to the root followed by its names |
| Storage.NamesFromText | src/infrastructure/storage/local-storage.service.ts:45 | on the text of a key: a name and `..` cancel, `.` and doubled or trailing slashes count for nothing |
| Storage.PlainKeyNames | src/infrastructure/storage/local-storage.service.ts:45 | a key of plain names stands for those names |
| Storage.DetourResolvesAlike | src/infrastructure/storage/local-storage.service.ts:38-54 | a key with a detour is accepted exactly like the key without it, and resolves to the same place |
| Storage.StoreRefinesMap | src/infrastructure/storage/local-storage.service.ts:56-82 | over any run the store answers and ends as a map from name lists to bytes does, and never holds a file above another |
| Storage.OperationRefines | src/infrastructure/storage/local-storage.service.ts:56-82 | one operation on the tree is one operation on the map with the same answer |
| Storage.PutExactly | src/infrastructure/storage/local-storage.service.ts:56-62 | a put succeeds exactly when no file stands above the entry and no directory in its place; then exactly that file and its ancestors are new, and otherwise nothing changes |
| Storage.OthersExactly | src/infrastructure/storage/local-storage.service.ts:64-82 | get, exists and delete answer exactly by what stands at the entry, delete removes just a file, and a bad key changes nothing |
| Storage.AliasesShareOneEntry | src/infrastructure/storage/local-storage.service.ts:38-67 | keys with the same names read and overwrite one entry, and a put leaves every other entry alone |
| Storage.OutsideUntouched | src/infrastructure/storage/local-storage.service.ts:38-72 | nothing outside the root changes, except that a put may create the root's own missing ancestors |
| Storage.RootBecomesFileExactly | src/infrastructure/storage/local-storage.service.ts:50-72 | the root is a file after an operation exactly if it was one and no key of the root is deleted, or it did not exist and such a key is put |
| Storage.FileRootRefusesNames | src/infrastructure/storage/local-storage.service.ts:56-62 | while the root is a file every put under a key that names something is refused and changes nothing |
| Storage.NameAndBackNamesRoot | src/infrastructure/storage/local-storage.service.ts:38-54 | for every file name, the name followed by `/..` is an accepted key of the root itself |
| Storage.DotBlocksFreshStore | src/infrastructure/storage/local-storage.service.ts:50-62 | in an empty tree one put under `.` makes the root a file, after which no file name can be put |
| Storage.LocalStorageService.constructor | src/infrastructure/storage/local-storage.service.ts:30-32 | the root is the absolute, normalised text of the configured directory |
| Storage.LocalStorageService.Put | src/infrastructure/storage/local-storage.service.ts:56-62 | the map's put, refused for a bad key, under a file or onto a directory |
| Storage.LocalStorageService.Get | src/infrastructure/storage/local-storage.service.ts:64-67 | the stored bytes, or an error |
| Storage.LocalStorageService.Delete | src/infrastructure/storage/local-storage.service.ts:69-72 | the entry is gone; a missing one is no error |
| Storage.LocalStorageService.Exists | src/infrastructure/storage/local-storage.service.ts:74-82 | true for files and directories alike |
| Paths.WalkDepth | src/infrastructure/storage/local-storage.service.ts:45 | the dot-segment stack balances entered and left directories, and keeps leading dots exactly when a prefix escapes |
| Paths.NameAndBackCancels | src/infrastructure/storage/local-storage.service.ts:45 | in every path a name followed by `..` leaves no trace: `..` takes back the name right before it |
| Paths.AbsoluteText | src/infrastructure/storage/local-storage.service.ts:49 | the text of a location is `/` for the top and one slash and name per level |
| Paths.NormalizedSteps | src/infrastructure/storage/local-storage.service.ts:45-46 | a normalised path spells its stack, and starts with its first segment |
| Paths.LocateAbsolute | src/infrastructure/storage/local-storage.service.ts:49 | the text of an absolute location is read back as that location |
| Argv.ParseArgs | scripts/create-super-admin.ts:43-72 | the double-incrementing loop returns, for each option, what follows its last occurrence if that is a value; the Google id falls back to the e-mail, and dry-run is false whatever the line says |
| Argv.MeaningKeepsPromise | scripts/create-super-admin.ts:64-72 | the same of the meaning of every command line, with every option token written out |
| Argv.LastSlotIsLast | scripts/create-super-admin.ts:55-62 | an option's slot is that of its last occurrence from position 2 on, and absent exactly without one |
| Argv.PromoteIffOccurs | scripts/create-super-admin.ts:53 | the promotion flag is set exactly when its token occurs from position 2 on |
| Argv.OptionsAreNeverValues | scripts/create-super-admin.ts:56-59 | at every point of the scan, overwritten later or not, the value held for a key is the token right after an occurrence of the key, never empty and never starting with two dashes |
| Argv.RenderRoundTrip | scripts/create-super-admin.ts:43-72 | every rendered command line reads back with each option's last given value |
| Argv.ScriptOptionsRoundTrip | scripts/create-super-admin.ts:65-71 | the script's three options and its flag come back exactly as given |

## Left out

- Authentication, sessions, cookies, password hashing and the session lookup itself: library behaviour; what the
  role guard's fallback finds is a parameter, and the copying of headers for it is not modelled.
- Caches, queues, push, logging, timeouts, health checks, exception filters, validation pipes, configuration: wiring
  or single folds that would add only easy members.
- Deletion of users: no service does it, and no step here does, so references to users are kept by the checks alone.
- `findByLeaderId`, `listByUser`, `countServants`, `getRole` and the `updateContact`, `deactivate` and `reactivate`
  methods of the Member entity: no modelled protocol calls them. Timestamps other than a class's creation are absent.
- A link between the class id in a URL and the `X-Class-Id` header: no code ties them, so no property rests on it.
- The `url` in the result of `put`, disk failures, symlinks and Windows path rules: the file system is a small tree,
  and one storage operation is not interleaved with another.
- Text is Unicode scalar values, so unpaired UTF-16 surrogates do not occur; role names are lower-cased over A to Z,
  which decides every comparison the role guard makes.
- Options whose names are special to JavaScript records, such as `__proto__`: the script never reads them.
- The two list queries run on an unchanging table, ties are broken by id, names are ordered by code point instead of
  the database's collation, and the case-insensitive containment test on names is a parameter.
- `main` of the super-admin script, the seed script and the features that exist only in the documentation (quizzes,
  leaderboards, attendance).
- Services.ServantClassService.Assign: the method runs without interference; overlapping runs are the subject of
  Machine and Linearisation, and Serving.SoloCallServes joins the two.
