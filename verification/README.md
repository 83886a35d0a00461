# Verified model of a review service: invites, releases, catalogs, reports and ledgers

This project models the decision logic of the repository in Dafny and proves what that logic is for. It follows the
program's own files, one group of modules per component:

- **Invite protocol** (`InviteModel`, `InviteSweep`, `InviteRuns`, `InviteSafety`, `InviteOutcomes`, `InviteExpiry`,
  `InviteAnswers`, `InviteRefinement`, `InviteClocks`, `InviteTerms`, `InviteDatabase`, with `Entitlement`, `NamedBinds`
  and `Collation`). `Database` is the class with the source's reads and batches; each method is tied to a function on
  `Store` values. `Sys`, `Step` and `Run` are every interleaving of a request's reads, batches, flips, sweeps, revokes,
  removals, plan changes, sign-ups and workspace removals. `InviteTerms` says what the guards and writes mean in the
  stored rows.
- **Image-input gate** (`GlobPattern`, `GlobLimits`, `JsonComments`, `CommentLaws`): the glob compiler with a small regex
  reader and matcher, the comment scanner as a loop refining a lexer, and the laws that say what it does to any text.
- **Changelog** (`Text`, `Pieces`, `Changelog`, `ChangelogText`, `ChangelogRoundTrip`, `ChangelogFrame`, `SectionBody`,
  `SectionLines`, `BodyText`, `ReleaseRoundTrip`): the writer, the reader, the fragments' section body, what they do to
  the text literally, and the whole way from fragments to the text read back.
- **Versions** (`Semver`, `VersionBump`, `Precedence`) and **review keys** (`ReviewKey`, `KeyText`); `Letters` holds the
  ASCII letters and digits that the grammars' ranges stand for.
- **Provider catalog** (`Catalog`, `CatalogBuild`, `CatalogUnion`, `CatalogGenerator`, `CatalogContents`, `OmpExtract`,
  `ExtractMeaning`, `CatalogAgreement`, `CatalogFindings`): the generator's three passes and the extractor's loop as
  methods, what a returned catalog and a provider's fate say, and what the two scripts agree on.
- **Document gate** (`Frontmatter`, `DocumentSync`, `TokenSlots`, `SyncReport`, `SyncDecision`, `SyncFindings`): the
  routing against the classes of names, and the report's verdict and findings against the declared tokens.
- **Insights** (`Ordered`, `InsightsDates`, `Insights`, `InsightsGrid`, `InsightsStore`, `InsightsMeaning`).
- **Deploy evidence** (`Evidence`) and the **admin ledger** (`Ledger`).

Loops and state changes of the source are methods and classes proved against specification functions; the properties
are lemmas about those functions, and the leaf functions they name have laws of their own on literal text and stored
fields. Characters are UTF-16 units, numbers are unbounded integers, and every SQL statement
is its effect on maps or sequences of rows; a `db.batch` is one atomic step.

## What the proofs found

- **When lazy expiry shows.** A request reads its clock first and commits later, so a flip by a later clock can land in
  between. Over every interleaving and all clocks, the answers are those of a run that never flips exactly when no read,
  create or accept is misled by a flipped row its own clock calls live, no revoke hits a flipped row (`revokeInvite` has no
  expiry test), and no accept's first read meets one (`AnswersAgreeExactly`). That last difference is only one of wording:
  a dead invite is refused as expired until something flips it and as gone afterwards. Nothing is misled while no clock
  lies behind an earlier flip (`FlipsRefinePredicate`). `SweepThenAccept`, `SweepThenCreate` and `SweepThenRevoke` are
  runs that do tell.
- **Accept without a users row.** The membership insert joins `users`, so it selects nothing for such a login; no guard has
  refused, and the refusal chain falls through to the free-slot answer although the login holds no free workspace
  (`AcceptWithoutUserRow`).
- **Create refusals differ in what they keep.** A cap refusal keeps the flip of lapsed rows, a duplicate refusal rolls it
  back, and the cap is reported first when both apply (`CreateOutcomeExact`).
- **Changelog frame.** Inserting a version changes what another one extracts in two cases and no other
  (`OtherSectionsUnchanged`). Without an Unreleased line, a header line that runs straight into the first section break
  loses its section (`DamagedChangelog`). With one, a section that the reader runs on from into the notes under it loses
  those notes; where every `## [` starts a line that is a header line right above the Unreleased line
  (`RunsIntoNotesLayout`, `DamagedAboveUnreleased`).
- **Empty releases.** A release without fragments writes a bare header, and extracting it gives the notes that stood under
  the Unreleased line (`EmptyReleaseReadsNotes`).
- **Changelog round trip.** The body comes back exactly when only blank text stood between the Unreleased line and the next
  section (`RoundTrip`).
- **Globs.** The compiled pattern means the glob for globs without NUL and paths without line terminators
  (`CompiledGlobMeansGlob`); `PathLimit` and `GlobLimit` are the exact conditions on the path and on the glob. The gate's
  own families need no condition (`ChangedFamiliesExact`).
- **Catalog, an owned key.** A snapshot key the extractor takes over loses its place when all its records have blank env
  names and no row has their ids (`OwnedKeyKeepsARow` is the exact condition; `OwnedKeyCanVanish` shows a build that goes
  through without it, for any tables and snapshot).
- **Catalog, refusals.** The generator refuses an extracted provider exactly when its alias target has no row, or when it
  is a models.dev key that fails the id grammar and has no recorded reason (`RefusedExactly`). Two extracted records with
  one id always stop the build (`CollidingRecordsRefused`): a provider `foo` on two protocols and a provider named
  `foo-responses` do (`SuffixCollision`).
- **Catalog, base URLs.** The extractor's header comment says a loopback `http://` base URL becomes null
  (`scripts/provider-catalog/extract-omp-snapshot.ts:30-32`); the loop has no such test, and the model follows the loop.
  A record has no base URL exactly when neither its models nor its seed name one (`NoBaseUrlExactly`), and a URL the
  models share ships whatever its scheme (`SharedUrlShips`, `LoopbackIsKept`).

## Model

| member | source | states |
|---|---|---|
| `InviteRuns.SeatsNeverExceedCap` | src/dashboard/invite-store.ts:228-279 | Over every interleaving of requests, batches, sweeps, revokes and removals, members plus pending rows stay within a cap that is only kept or raised, whatever order the requests' clocks have |
| `InviteRuns.CreateSeats` | src/dashboard/invite-store.ts:312-366 | One create batch raises the seats held by at most one, and only to live seats plus one within the limit it read; any other outcome raises none |
| `InviteRuns.AcceptSeats` | src/dashboard/invite-store.ts:617-642 | One accept batch never raises members plus pending: it turns one pending row into at most one member |
| `InviteOutcomes.CreateOutcomeExact` | src/dashboard/invite-store.ts:312-366 | Cap refusal iff members and live invites fill the cap, duplicate refusal iff below it a live invite for the login exists, and which of them keeps the flip |
| `InviteOutcomes.AcceptOutcomeExact` | src/dashboard/invite-store.ts:535-666 | For a live invite and a known login: admitted iff already a member or both guards allow, as admin iff the invite is for an admin, free-slot refusal iff the free guard fails, cap refusal iff only the seat guard fails, with the exact store after each |
| `InviteOutcomes.AcceptWithoutUserRow` | src/dashboard/invite-store.ts:242-275 | Exactly what an accept answers and writes for a login without a users row |
| `InviteOutcomes.RefusalWritesNothing` | src/dashboard/invite-store.ts:535-666 | An accept that does not admit leaves the store as it was, or only flips lapsed rows of the invite's workspace |
| `InviteOutcomes.RepeatAccept` | src/dashboard/invite-store.ts:542-560 | A second accept at any time, in any spelling of the login, gives the same answer and writes nothing |
| `InviteOutcomes.DeadInviteAdmitsNobody` | src/dashboard/invite-store.ts:617-639 | A revocation, expiry or acceptance that lands before the batch wins: the batch only flips |
| `InviteTerms.AdmittedRole` | src/dashboard/invite-store.ts:618-626 | A login that held no membership is admitted with the role its invite names: the answer and the stored row are admin iff the invite is for an admin, member iff for a member, and never owner |
| `InviteTerms.BatchRole` | src/dashboard/invite-store.ts:618-626 | The same for the batch alone in whatever store it meets, as an interleaving may leave it |
| `InviteTerms.CreateNeedsPlan` | src/dashboard/invite-store.ts:312-346 | A create fails and writes nothing iff its plan does not resolve, and is its batch with that plan's seats otherwise |
| `InviteTerms.AcceptSettledByRead` | src/dashboard/invite-store.ts:542-572 | What the first read settles: an unknown or foreign invite, a dead one, one accepted before, a lapsed one, and one without a plan |
| `InviteTerms.CreatedRow` | src/dashboard/invite-store.ts:290-295 | A create inserts one pending row with the workspace, login, role, inviter and the two times it was asked for, and changes no other table |
| `InviteTerms.FlipMeans` | src/dashboard/invite-store.ts:171-172 | A flip expires exactly the pending rows of its workspace whose deadline is not after its clock |
| `InviteTerms.RevokedRow` | src/dashboard/invite-store.ts:479-495 | A revoke ends exactly a pending row of that workspace, lapsed or not, and touches nothing else |
| `InviteTerms.SeatsMean` | src/dashboard/invite-store.ts:228-279 | The two seat guards count the workspace's members, and the create's also its unexpired pending invites, below the limit if there is one |
| `InviteTerms.FreeSlotMeans` | src/dashboard/invite-store.ts:242-252 | The free-slot guard lets through a self-hosted deployment, a workspace with an active subscription to a plan other than `free`, and a login without a membership in a live workspace that has none |
| `InviteTerms.UninterruptedCreate` | src/dashboard/invite-store.ts:312-366 | The read and batch steps of a run, with nothing between them, write and answer what the whole create does |
| `InviteTerms.UninterruptedAccept` | src/dashboard/invite-store.ts:535-666 | The two reads and the batch of a live invite, with nothing between them, write and answer what the whole accept does |
| `InviteExpiry.LazyExpiryInvisible` | src/dashboard/invite-store.ts:373-432 | After any run, clocks in any order, at any read time not before its flips, live lists, their rows and seat counts equal those of the same final store with every flip undone |
| `InviteTerms.UnflipUndoes` | src/dashboard/invite-store.ts:171-213 | Undoing the flips of a store that had no expired rows gives back its rows, after a workspace flip and after a sweep |
| `InviteRefinement.AnswersAgreeExactly` | src/dashboard/invite-store.ts:11-21 | Over every interleaving, clocks in any order, from any state whose in-flight accepts name a stored invite as their first read leaves them: all answers of the run with flips and sweeps are those of the run in which expiry is only a predicate, up to expired or gone for a dead invite, iff no read, create or accept is misled by a flipped row its clock calls live and no revoke hits a flipped row; and to the letter iff besides no accept's first read meets a flipped row |
| `InviteRefinement.OtherAnswersAgreeExactly` | src/dashboard/invite-store.ts:11-21 | All answers but revoke's are alike iff nothing is misled, whatever revokes were told |
| `InviteRefinement.ReadsAgreeExactly` | src/dashboard/invite-store.ts:373-432 | After a run in which nothing was misled the members are the same, and a read at any time finds the same live invites and seats iff it hides no flipped row of the workspace |
| `InviteAnswers.ReadAnswersAccept` | src/dashboard/invite-store.ts:542-572 | An accept's first read, unless it lets the accept proceed, answers what the whole accept answers |
| `InviteClocks.FlipsRefinePredicate` | src/dashboard/invite-store.ts:11-21 | If no read, create or accept looks by a clock behind an earlier flip's, every answer but revoke's is alike that of the run that never flips |
| `InviteClocks.ReadsAfterRunAgree` | src/dashboard/invite-store.ts:373-432 | And any read not behind the flips finds the same live invites, seats and members |
| `InviteClocks.RevokeSeesTheFlip` | src/dashboard/invite-store.ts:479-495 | Then all answers are alike iff no revoke hits a row flipped before it and not settled earlier |
| `InviteClocks.RevokesInTimeAgree` | src/dashboard/invite-store.ts:479-495 | If each revoke's row is settled or its deadline lies ahead of every flip so far, all answers are alike iff nothing is misled, for clocks in any order |
| `InviteClocks.SweepThenRevoke` | src/dashboard/invite-store.ts:479-495 | After a sweep with room for the backlog, revoking any row it flipped answers false where the run that never flips answers true |
| `InviteClocks.SweepThenAccept` | src/dashboard/invite-store.ts:535-642 | An accept in flight whose live row a later clock's sweep flips first answers gone where the run that never flips admits |
| `InviteClocks.SweepThenCreate` | src/dashboard/invite-store.ts:312-366 | A create in flight dated before the deadline of a row swept first goes through where the run that never flips refuses it as a duplicate |
| `InviteSweep.ChoiceUnique` | src/dashboard/invite-store.ts:197-213 | A sweep's choice is determined by the store: no row it takes expires later than a lapsed row it leaves, and at the same time it takes the lower ids |
| `InviteSweep.SweepDrains` | src/dashboard/invite-store.ts:197-213 | With the clock fixed a backlog of n rows is drained after exactly those run counts with runs times cap at least n |
| `InviteSweep.SweepNeverSkips` | src/dashboard/invite-store.ts:197-213 | No lapsed row is left while one that expires later, or at the same time with a higher id, is flipped |
| `InviteSweep.SweepFlipsLapsed` | src/dashboard/invite-store.ts:197-213 | A sweep changes the status of min(cap, lapsed) pending rows past their deadline, and nothing else in any row |
| `InviteSafety.InviteLifecycle` | src/dashboard/invite-store.ts:171-172 | Over any run every row stays and moves at most once, out of pending; only its status changes, and with an acceptance its time |
| `InviteSafety.RunKeepsOnePending` | migrations/0028_workspace_invites.sql:18-30 | At most one pending row per workspace and login, ignoring case, in every reachable store |
| `Collation.FoldIs` | migrations/0028_workspace_invites.sql:18-30 | Ignoring case folds the 26 capitals to their small letters and no other character |
| `InviteSafety.AddedMemberConsumesInvite` | src/dashboard/invite-store.ts:617-639 | Only an accept batch adds a member, one at a time and in the role its invite names, and the same batch turns that member's own live invite accepted |
| `InviteSafety.MembershipComesFromInvite` | src/dashboard/invite-store.ts:617-639 | Over any run every new membership has an invite of its own, pending or not yet created at the start and accepted at the end |
| `InviteSafety.OneFreeMembershipPerLogin` | src/dashboard/invite-store.ts:242-275 | On `saas`, while no paid workspace becomes free, no interleaving gives a login a second live free membership |
| `InviteTerms.OneFreeMeans` | src/dashboard/invite-store.ts:242-252 | That is: no login holds memberships of two different live workspaces without an active subscription to a paid plan |
| `InviteDatabase.Database.CreateInvite` | src/dashboard/invite-store.ts:312-366 | The read and the batch together are `Create` on the store |
| `InviteDatabase.Database.AcceptInvite` | src/dashboard/invite-store.ts:535-666 | The reads, the batch, the re-read and the refusal chain together are `Accept` on the store |
| `InviteDatabase.Database.RevokeInvite` | src/dashboard/invite-store.ts:479-495 | Revokes exactly a pending row of that workspace and says whether it did |
| `InviteDatabase.Database.ExpireLapsedInvites` | src/dashboard/invite-store.ts:197-213 | Flips exactly the min(cap, lapsed) rows that expire first, by id among equals, and returns their number |
| `Entitlement.ResolveWorkspacePlans` | src/dashboard/entitlement.ts:103-150 | The chunked list read agrees with the pointwise rule on every id, loses none, and fails iff some id has no plan |
| `InviteTerms.ResolvedPlan` | src/dashboard/entitlement.ts:45-150 | Self-hosted has no limits; else an active subscription to a known plan gives that plan's name and seats, and without one the `free` row does; no plan iff that row is missing |
| `NamedBinds.BindNamed` | src/dashboard/invite-store.ts:142-165 | Each placeholder carries its own name's value whatever the order of first use; fails iff a name has no value; no value is unused |
| `GlobPattern.CompiledGlobMeansGlob` | scripts/check-image-inputs.ts:52-60 | The pattern written by the rewriting passes, read as a regex, matches exactly the paths the glob means |
| `GlobLimits.PathLimit` | scripts/check-image-inputs.ts:52-60 | A path has that equivalence with every NUL-free glob iff it holds no line terminator |
| `GlobLimits.GlobLimit` | scripts/check-image-inputs.ts:52-60 | A glob has it with every single-line path iff it holds no NUL, or holds a line terminator and so matches no such path either way |
| `GlobPattern.ChangedFamiliesExact` | scripts/check-image-inputs.ts:233-243 | On any changed paths the gate names exactly the families some path lies in, and fires iff there is one |
| `JsonComments.StripJsonComments` | scripts/check-image-inputs.ts:156-190 | The one-pass scanner writes what the lexer's tokens write, unterminated strings and comments included |
| `JsonComments.StrippedTokens` | scripts/check-image-inputs.ts:156-190 | Lexing the output gives the original tokens with comments cleaned away: no removed comment makes a new one at its seam |
| `JsonComments.StripCorrect` | scripts/check-image-inputs.ts:156-190 | No comment survives outside a string, every string literal survives in order, stripping is idempotent, and text is unchanged iff it has no comment |
| `CommentLaws.StripByPieces` | scripts/check-image-inputs.ts:156-190 | Without the lexer: a line comment up to its line feed becomes that line feed, a block comment up to the first end mark becomes nothing, a string up to its first unescaped quote and every other character stay, unterminated ones included, and stripping goes on behind |
| `CommentLaws.FirstPiece` | scripts/check-image-inputs.ts:156-190 | Every text begins with such a piece, so these laws determine the result on every text |
| `CommentLaws.TokensSpellTheText` | scripts/check-image-inputs.ts:156-190 | The tokens' own texts put together are the text: none is lost or invented |
| `Changelog.InsertShape` | scripts/prepare-release.ts:179-206 | All four placement branches write kept text, header, body and rest in one shape, an empty body left out |
| `ChangelogText.InsertedUnderUnreleased` | scripts/prepare-release.ts:179-198 | Literally: under the first Unreleased line, behind one blank line that takes the place of one standing there, come the header, a blank line, the body and a blank line |
| `ChangelogText.InsertedAtTheEnd` | scripts/prepare-release.ts:188-195 | Literally: when the Unreleased line ends the text, the section goes below it |
| `ChangelogText.InsertedAboveSections` | scripts/prepare-release.ts:199-206 | Literally: without one, the section stands above the first section line, behind one blank line after what stands there without its trailing white space |
| `ChangelogText.InsertedBelow` | scripts/prepare-release.ts:199-203 | Literally: without any section, it stands below what is there |
| `ChangelogText.RefusedIffPresent` | scripts/prepare-release.ts:179-187 | An insert is refused iff the version's header stands somewhere in the changelog |
| `ChangelogText.ReadsItsSection` | scripts/extract-changelog-section.ts:33-47 | Literally: a version reads as the text below its first header line, up to the next line that opens a section, without the white space at its ends, and blank text is an error |
| `ChangelogText.ReadsNothing` | scripts/extract-changelog-section.ts:33-47 | A version whose header stands nowhere has no section, and one whose header line ends the text an empty one |
| `ChangelogRoundTrip.RoundTrip` | scripts/prepare-release.ts:179-206 | The inserted version extracts as its body iff only blank text followed the Unreleased line; a second insert always refuses |
| `ChangelogFrame.OtherSectionsUnchanged` | scripts/extract-changelog-section.ts:33-47 | On any changelog, with a body or none, inserting one version leaves another version's extraction as it was iff its header line does not run into the first section break of a changelog without Unreleased and the reader does not run on from it into notes under an Unreleased line |
| `ChangelogFrame.RunsIntoNotesLayout` | scripts/extract-changelog-section.ts:33-47 | When every `## [` starts a line, running into notes is one layout: a header line right above an Unreleased line with notes under it |
| `ChangelogFrame.DamagedChangelog` | scripts/prepare-release.ts:199-206 | A family of changelogs in which a version that extracts before an insert has no section after it |
| `ChangelogFrame.DamagedAboveUnreleased` | scripts/prepare-release.ts:188-198 | A family in which a version's section reads as the Unreleased line and notes before an insert and as the line alone after it |
| `SectionBody.BuildGroups` | scripts/prepare-release.ts:148-166 | The grouping loop gives each category, in order of first appearance, all its own bullets in order |
| `SectionBody.GroupingLosesNothing` | scripts/prepare-release.ts:148-166 | The groups hold exactly the fragments' non-blank lines, counted with repetition |
| `SectionLines.BodyKeepsEveryLine` | scripts/prepare-release.ts:148-177 | Read back line by line, the written body is each group's heading and its bullets in order: every fragment's non-blank line survives joining, squeezing and trimming, and nothing else appears |
| `SectionBody.BuildSectionBody` | scripts/prepare-release.ts:148-177 | The written body is the rendering of those groups and has no blank text at either end |
| `BodyText.BodyIsBlocks` | scripts/prepare-release.ts:148-177 | Literally: each group is `### ` and its category, a blank line and its bullets, with one blank line between each two groups |
| `BodyText.BulletSource` | scripts/prepare-release.ts:148-166 | The English text takes the English bullets, the Chinese one its own or, where there are none, the English |
| `BodyText.LineTaken` | scripts/prepare-release.ts:158-161 | Of each line its text is taken without the white space at its end, and a blank line gives nothing |
| `Text.WhiteIs` | scripts/prepare-release.ts:158-170 | The white space trimmed is that of ECMAScript, by code point |
| `ReleaseRoundTrip.RenderedIsReleaseBody` | scripts/prepare-release.ts:148-177 | A body made from fragments is trimmed, never empty and opens no section, when no heading or bullet of theirs does |
| `ReleaseRoundTrip.ReleaseVersionIsPlain` | scripts/release-surfaces.ts:82-84 | A release version has no bracket, hash sign or line break, so its header is found as written |
| `ReleaseRoundTrip.PreparedReleaseReadsBack` | scripts/prepare-release.ts:229-256 | Fragments written into a changelog for a release version extract as the written body iff only blank text followed the Unreleased line; preparing again is refused |
| `ReleaseRoundTrip.EmptyReleaseReadsNotes` | scripts/prepare-release.ts:241-256 | A release from no fragments extracts as the trimmed notes that stood under the Unreleased line, or fails as empty; preparing again is refused |
| `Semver.CompareCore` | scripts/release-surfaces.ts:197-211 | The index loop with early return is the lexicographic order of the three numbers |
| `Semver.ComparePrerelease` | scripts/release-surfaces.ts:213-225 | The index loop is the recursive order on identifier lists, a missing prerelease above all; `PrecedenceIsSection11` says which order that is |
| `Semver.SemverTotalPreorder` | scripts/release-surfaces.ts:90-94 | Exactly antisymmetric and transitive on all strings, with `parseInt`'s leading space, sign and not-a-number cases, on unbounded numbers |
| `Semver.SemverZero` | scripts/release-surfaces.ts:82-94 | On release versions, zero iff equal core numbers and identical prerelease text |
| `Precedence.PrecedenceIsSection11` | scripts/release-surfaces.ts:90-237 | On any two release versions, below means: the first differing core number is lower, or the cores are equal and only one has a prerelease, or the first differing identifier is lower (numbers by value, a number below a word, words by code unit, a prefix below its extension), or one identifier list is a proper prefix of the other |
| `Precedence.ReleaseVersionIsText` | scripts/release-surfaces.ts:72-84 | The accepted versions are exactly three digit texts joined by dots and, after a hyphen, dotted identifiers of letters, digits and hyphens whose numbers have no leading zero |
| `Semver.CanonicalDecimal` | scripts/release-surfaces.ts:82-84 | Numeric identifiers without leading zero have one spelling per number |
| `VersionBump.PatchBumpIsLeast` | scripts/release-surfaces.ts:105-117 | The patch bump is the least stable version above v, for stable and prerelease v alike |
| `VersionBump.MinorBumpIsLeast` | scripts/release-surfaces.ts:105-117 | The minor bump is the least stable version with v's major and a higher minor, and is above v |
| `ReviewKey.LoneSurrogateExact` | scripts/mstar-export-review.ts:35 | The pattern matches exactly the strings that are not well-formed UTF-16 |
| `ReviewKey.Utf8Injective` | scripts/mstar-export-review.ts:38-51 | Well-formed strings with equal UTF-8 bytes are equal |
| `ReviewKey.KeyAlwaysDerives` | scripts/mstar-export-review.ts:38-51 | Every well-formed five-part tuple derives a safe key that is never plan-shaped, so the last throw is unreachable |
| `ReviewKey.KeysAreInjective` | scripts/mstar-export-review.ts:38-51 | Two accepted tuples share a key iff their parts are the same |
| `ReviewKey.LoneSurrogatesCollide` | scripts/mstar-export-review.ts:35 | Each lone surrogate would share its segment with the replacement character |
| `KeyText.DerivedExactly` | scripts/mstar-export-review.ts:38-51 | A key is derived iff the text is five non-empty well-formed parts with a slash or a colon between each two, and it is `r-` and their segments in order with hyphens between |
| `KeyText.EncodeSpells` | scripts/mstar-export-review.ts:45-46 | Each code point's bytes read back to it by the table in section 3 of RFC 3629 |
| `KeyText.UnitBytes` | scripts/mstar-export-review.ts:45-46 | A unit outside the surrogates is encoded as its own code point |
| `KeyText.PairBytes` | scripts/mstar-export-review.ts:45-46 | A surrogate pair is encoded as the one code point it stands for |
| `KeyText.HexDigits` | scripts/mstar-export-review.ts:45-46 | Each byte is written as its two hexadecimal digits, the high one first |
| `KeyText.PlanKeyIs` | scripts/mstar-export-review.ts:31-33 | A plan-shaped key is eight digits, a hyphen, and small letters, digits and hyphens |
| `CatalogGenerator.BuildCatalog` | scripts/generate-provider-catalog.ts:264-473 | Returns iff sources are present, nothing is overwritten and the omp file is consistent and explained, repeated provider ids included; the catalog has exactly the table, breadth and union rows, the hand-maintained ones untouched, and the audit lists are the classes of every key and item as met |
| `CatalogGenerator.NoKeyLost` | scripts/generate-provider-catalog.ts:314-365 | The four key buckets and the breadth rows add up to the snapshot |
| `CatalogGenerator.NoItemLost` | scripts/generate-provider-catalog.ts:372-471 | The four union buckets and the union rows add up to every record and every record-less provider |
| `Catalog.KeySortedOnce` | scripts/generate-provider-catalog.ts:314-365 | All occurrences of a key are in the bucket of its class and in no other |
| `Catalog.ItemSortedOnce` | scripts/generate-provider-catalog.ts:405-471 | Every visit to a record or provider is in the bucket of its class and in no other; of a record that becomes a row the first visit is, and the rest find it present |
| `Catalog.EveryRecordVisitedOnce` | scripts/generate-provider-catalog.ts:381-409 | With distinct provider ids that list every owner, the walk meets each record exactly once |
| `Catalog.ItemMet` | scripts/generate-provider-catalog.ts:381-409 | With any provider ids, the walk meets exactly the records of listed owners and the listed providers without records |
| `CatalogBuild.BuildBase` | scripts/generate-provider-catalog.ts:268-296 | Every builtin and curated template has its own row and there is no other, iff no source key is missing |
| `CatalogBuild.AddBreadth` | scripts/generate-provider-catalog.ts:314-365 | One row per surviving key beside the untouched earlier rows, iff no surviving key is a row already |
| `CatalogUnion.AddUnion` | scripts/generate-provider-catalog.ts:372-471 | Fails iff a record id repeats, an owner is unlisted or a record-less provider is unexplained; otherwise adds exactly the new records' rows |
| `CatalogUnion.GroupRecords` | scripts/generate-provider-catalog.ts:381-396 | Groups every record under its owner, iff no record id repeats |
| `CatalogContents.BuiltinShips` | scripts/generate-provider-catalog.ts:269-285 | In a returned catalog a builtin has its table's label, key variable and protocol, its base URL and page unless the source's stand in, and the source's models clipped to the count |
| `CatalogContents.BreadthShips` | scripts/generate-provider-catalog.ts:347-363 | A snapshot provider's row is a template with the snapshot's name, URL, models and page and the default protocol |
| `CatalogContents.RecordShips` | scripts/generate-provider-catalog.ts:459-467 | A new record's row is a template with the record's own label, URL, protocol and models |
| `CatalogContents.KeyClassIs` | scripts/generate-provider-catalog.ts:314-341 | Which bucket a snapshot key is in, by the first rule that applies |
| `CatalogContents.RecordClassIs` | scripts/generate-provider-catalog.ts:437-458 | Which bucket a record is in: present, blank key variable, bad id, protocol or placeholder, or a new row |
| `CatalogContents.BareClassIs` | scripts/generate-provider-catalog.ts:410-436 | Which bucket a provider without records is in, or that it stops the build, by the first rule that applies |
| `CatalogContents.PlaceholderLaws` | scripts/generate-provider-catalog.ts:454-455 | A placeholder is the text between a brace and the next closing one, when there is any |
| `CatalogContents.ItemsAsMet` | scripts/generate-provider-catalog.ts:405-471 | The union's audit lists are in the order of the walk |
| `OmpExtract.FindMostCommon` | scripts/provider-catalog/extract-omp-snapshot.ts:213-225 | Counting and one scan of the distinct values find the same value as a scan of the whole list |
| `OmpExtract.MostCommonIsMode` | scripts/provider-catalog/extract-omp-snapshot.ts:213-225 | It occurs in the list, nothing occurs more often, and nothing as frequent was met earlier |
| `OmpExtract.ProtocolsExact` | scripts/provider-catalog/extract-omp-snapshot.ts:265-272 | The protocol list is the models' protocols, each once, the most common one first |
| `OmpExtract.ProtocolsSplitModels` | scripts/provider-catalog/extract-omp-snapshot.ts:265-304 | The per-protocol groups add up to the provider's models: none is lost or listed twice |
| `OmpExtract.ExtractAll` | scripts/provider-catalog/extract-omp-snapshot.ts:227-316 | The main loop is the fold of each provider's fate |
| `OmpExtract.RecordsAreUsable` | scripts/provider-catalog/extract-omp-snapshot.ts:276-307 | Every extracted record passes the generator's three materialization rules and belongs to a listed provider |
| `OmpExtract.OwnedKeysAreReplaced` | scripts/provider-catalog/extract-omp-snapshot.ts:308-315 | A models.dev key is taken over only together with a record that replaces it |
| `OmpExtract.FateIsShown` | scripts/provider-catalog/extract-omp-snapshot.ts:227-316 | With distinct ids, the id lists and the records say exactly each provider's fate |
| `ExtractMeaning.FateMeans` | scripts/provider-catalog/extract-omp-snapshot.ts:235-316 | A provider's fate by the first rule that applies: carried already, one protocol in models.dev, not by API key, or its usable records if it has one |
| `ExtractMeaning.RecordFields` | scripts/provider-catalog/extract-omp-snapshot.ts:271-305 | A record's fields: the main protocol keeps the provider's id, any other has a suffix and names its provider; label, first key variable, the models of its protocol in order, and the URL most of them have or else the seed's |
| `CatalogAgreement.OwnedKeyKeepsARow` | scripts/generate-provider-catalog.ts:326-331 | Across both scripts, an owned key keeps a record's id in the final catalog iff one of its records has an env name or an id already there |
| `CatalogAgreement.OwnedKeysAreCovered` | scripts/provider-catalog/extract-omp-snapshot.ts:308-315 | With non-blank env names every owned key keeps a place in the catalog |
| `CatalogAgreement.BuiltinTierNeverGrows` | scripts/generate-provider-catalog.ts:366-371 | Whatever the snapshots hold, a row of the final catalog has the builtin tier iff it is in the hand-written table |
| `CatalogAgreement.RefusedExactly` | scripts/generate-provider-catalog.ts:407-436 | On extractor output, repeated provider ids included, exactly which record-less providers the generator refuses |
| `CatalogAgreement.ExtractionBuilds` | scripts/generate-provider-catalog.ts:264-473 | On extractor output, repeated provider ids included, the four conditions that together decide whether the build returns |
| `CatalogFindings.OwnedKeyCanVanish` | scripts/provider-catalog/extract-omp-snapshot.ts:262-315 | For any tables and snapshot that build without the vendored file: a free models.dev key on two protocols with a blank env name is taken over, the build goes through, and neither the key nor a record of it is in the catalog |
| `CatalogFindings.CollidingRecordsRefused` | scripts/generate-provider-catalog.ts:383-393 | Two extracted records with one id stop the build, whatever the tables and the snapshot |
| `CatalogFindings.SuffixCollision` | scripts/provider-catalog/extract-omp-snapshot.ts:276-278 | With any tables and whatever else is listed, a provider on two protocols and one named like its second record are such a pair |
| `CatalogFindings.NoBaseUrlExactly` | scripts/provider-catalog/extract-omp-snapshot.ts:279-283 | A record has no base URL iff none of its models and neither seed field names one |
| `CatalogFindings.SharedUrlShips` | scripts/provider-catalog/extract-omp-snapshot.ts:279-305 | A URL without placeholders that the models of a provider's main protocol share is in its record, whatever its scheme or host |
| `CatalogFindings.LoopbackIsKept` | scripts/provider-catalog/extract-omp-snapshot.ts:279-305 | With any tables, in any list, an extracted record keeps a loopback `http://` URL |
| `Frontmatter.LeavesAgreeWithAt` | scripts/design-system-check.ts:479-493 | The collected leaf paths are exactly the dotted names of the leaves that reading by path finds |
| `TokenSlots.SlotIsWhereItBelongs` | scripts/design-system-check.ts:405-429 | The routing sends a token to exactly the keys that the class of its name gives it: typography by scale and property, spacing, the three radii, motion, elevation by theme, and colours by theme |
| `TokenSlots.ReasonIsItsClass` | scripts/design-system-check.ts:377-429 | A token has no slot exactly when it is of the component layer, a control or row height, or a primitive font or breakpoint, and the reason says which |
| `DocumentSync.MakeClaim` | scripts/design-system-check.ts:528-552 | One token: the first claim of a path is compared with the document, later ones with the first; reasons and live colours are counted |
| `SyncReport.CheckDocument` | scripts/design-system-check.ts:512-584 | Fails iff a theme is missing; otherwise the report is the forward sweep of every token and the reverse sweep of what it left |
| `SyncDecision.ForwardDecides` | scripts/design-system-check.ts:536-551 | No divergence and no collision iff every claim, not only the first, matches the document |
| `SyncDecision.StaleReadsItsLeaf` | scripts/design-system-check.ts:565-574 | The text reported for a stale name is the leaf's own, never "undefined" |
| `SyncDecision.ReportDecides` | scripts/design-system-check.ts:512-584 | With dot-free names and keys, `ok` iff every declared token that belongs somewhere reads as its value there, every declared colour has a token of its theme, and every declared leaf of the five groups has one or is one of the two that only the document has |
| `SyncFindings.DivergenceIs` | scripts/design-system-check.ts:536-551 | A divergence is reported for exactly the first claims of a path whose text differs from the document's, with both |
| `SyncFindings.CollisionIs` | scripts/design-system-check.ts:528-535 | A collision is reported for exactly the later claims of a path with another value than the first, naming both |
| `SyncFindings.StaleIs` | scripts/design-system-check.ts:565-575 | A leaf is reported stale exactly when no token has its path and it is not one of the document's own two |
| `InsightsDates.DayGrid` | src/dashboard/insights-dates.ts:69-76 | The loop writes every day of the window, once, ascending |
| `InsightsDates.WeekGrid` | src/dashboard/insights-dates.ts:85-94 | The loop writes the weeks from the first day's Monday to today's |
| `InsightsDates.MondayIsLatest` | src/dashboard/insights-dates.ts:44-49 | The latest Monday not after the day |
| `InsightsDates.WeekGridExact` | src/dashboard/insights-dates.ts:78-94 | Strictly ascending in steps of seven days, exactly the Mondays of the window's days, at most w/7 + 2 entries |
| `Insights.LeftJoinCounts` | src/dashboard/insights-store.ts:304-317 | COUNT(DISTINCT r.id) over the left join is the number of reviews in the bucket, those without findings included |
| `Insights.LeftJoinFindings` | src/dashboard/insights-store.ts:304-317 | COUNT(f.id) over the left join is the number of joined findings in the bucket |
| `InsightsGrid.AssembleDistribution` | src/dashboard/insights-store.ts:341-366 | The zero-filled buckets hold each bucket's total and each severity's count |
| `InsightsStore.CreateInsights` | src/dashboard/insights-store.ts:188-397 | Every part of the report counts its own bucket's reviews and findings among the matching rows |
| `InsightsMeaning.ReviewsRead` | src/dashboard/insights-store.ts:167-230 | The rows read are the reviews of the current envelope, of the repository and app asked for, and no older than the window, which is 30 days by default and 90 at most |
| `InsightsMeaning.NumbersCountRows` | src/dashboard/insights-store.ts:188-397 | Each number of the report is a number of rows: reviews by verdict and bucket, findings of those reviews by severity and bucket |
| `InsightsMeaning.BucketHolds` | src/dashboard/insights-store.ts:176-205 | A day bucket holds one UTC day's seconds, a week bucket the seven days from a Monday |
| `InsightsMeaning.WindowsByDay` | src/dashboard/insights-store.ts:193-199 | Windows of up to 30 days are shown by day, longer ones by week |
| `InsightsStore.Conservation` | src/dashboard/insights-store.ts:278-397 | Distribution, severity, weekly and daily findings are one number, and weekly, daily, verdict and total reviews are one number |
| `InsightsStore.GridIsComplete` | src/dashboard/insights-store.ts:335-343 | With no review dated after the read the observed starts add nothing, and on day windows each stacked bar equals that day's trend count |
| `Evidence.PickExactly` | scripts/collect-deploy-evidence.ts:309-327 | A run is picked iff one may be cited, it is one of them, on the wanted ref if any is, and the fallback flag says when it is not |
| `Evidence.NewerRun` | scripts/collect-deploy-evidence.ts:281-327 | A newer run on the ref and above the boundary takes over; one at or below the boundary, or off the ref, does not displace the ref's own run |
| `Evidence.NewestIsPicked` | scripts/collect-deploy-evidence.ts:309-327 | The first listed run above the boundary and on the ref is picked; an empty ref asks for none |
| `Evidence.FallbackIsNewest` | scripts/collect-deploy-evidence.ts:309-327 | When no run is on the ref, the first listed stands in and says so without a boundary, and none does above one |
| `Evidence.ConcludeExactly` | scripts/collect-deploy-evidence.ts:437-466 | A finished run ends in success with given values iff it succeeded and its two files hold exactly them between white text, single-line, backtick-free and bounded; it is failed iff it did not succeed, and otherwise degraded, always citing the run |
| `Evidence.CollectDeployEvidence` | scripts/collect-deploy-evidence.ts:474-522 | Ends within the intervals of the wait plus one polls, with the ending of exactly the polls made, and gives up only after the whole wait |
| `Evidence.EveryCitationIsOwn` | scripts/collect-deploy-evidence.ts:281-327 | Whatever the outcome, a cited run was listed, is above the boundary, is on the ref when both are set, and the fallback is disclosed iff its branch differs |
| `Evidence.EndingMeans` | scripts/collect-deploy-evidence.ts:474-522 | A failed call and a passed deadline cite the latest pick of the polls, and a completed run is concluded |
| `Evidence.EndsMeans` | scripts/collect-deploy-evidence.ts:474-522 | A call ends as its polls say, and no poll before the last failed or picked a completed run |
| `Evidence.IntervalsCover` | scripts/collect-deploy-evidence.ts:474-522 | The bound on the polls is the fewest intervals that are as long as the wait |
| `Evidence.NoRunIsTrue` | scripts/collect-deploy-evidence.ts:389-416 | "No run" only if no poll listed a citable run; the boundary is named iff some poll listed runs |
| `Ledger.LedgerReplays` | src/admin/index.ts:90-135 | Over any interleaving of flag and slug writes, replaying the new ledger rows on the initial rows gives the current ones |
| `Ledger.BeforeIsPreviousAfter` | src/admin/index.ts:75-89 | Each row's before is the previous row's after for the same target |
| `Ledger.LedgerChains` | src/admin/flags.ts:29-36 | Each row's before is what replaying the rows ahead of it gives, an absent flag reading enabled |
| `Ledger.AppendsExactly` | src/admin/workspaces.ts:132-157 | A write that goes through appends one audit row naming what was asked, its before the old stored value and its after the new one; any other write appends none and leaves every flag and slug; no write touches another target |
| `Ledger.FlagRow` | src/admin/index.ts:75-135 | A flag write stores what was asked and logs what the flag read before, an absent one as on |
| `Ledger.SlugRow` | src/admin/workspaces.ts:120-157 | A rename goes through exactly for a live workspace whose new slug no other one has, ignoring case, or has as its id |
| `Ledger.RunKeepsSlugs` | src/admin/workspaces.ts:126-136 | Slugs stay distinct ignoring case and never equal another workspace's id |
| `Ledger.ReferenceIsUnambiguous` | src/dashboard/workspace-store.ts:69-84 | So an id or slug never refers to two workspaces |
| `Ledger.Database.SetFlag` | src/admin/index.ts:90-135 | Gate, shape check, and the audit insert before the upsert as one write |
| `Ledger.Database.SetWorkspaceSlug` | src/admin/workspaces.ts:171-205 | The guarded batch, and which refusal is named when it wrote nothing |

## Left out

- SQL text, D1 drivers and error-message matching: statements are effects on rows, and the UNIQUE violation of the pending index is a branch.
- InviteOutcomes.AcceptOutcomeExact: the source compares the invite's login with the caller's by `toLowerCase`, which folds all of Unicode; the model folds ASCII letters, as SQL's NOCASE does.
- The re-read after an accept's batch is one step with the batch, and a repeat accept's role read with its first read.
- Users-row deletion, login renames, workspace creation and un-deletion in the invite runs: one users row per login is an assumption.
- NamedBinds.BindNamed: does not model the regex that finds `:name` tokens; the statement comes as pieces.
- GlobPattern.CompiledGlobMeansGlob: the regex engine is the part these patterns use: literals, escapes, `.`, `[^/]`, `*` and the anchors.
- `resolveBase`, `evaluateImageGate` and the git calls around them.
- `parseFragment`: fragments come parsed; headings and rendering of the release notes beyond the section body are not modelled.
- Semver.SemverTotalPreorder: does not model that `parseInt` loses precision above 2^53; numbers here are unbounded.
- Prototype-named keys (`constructor`) in the plain objects `buildCatalog`, `ALIAS` and `rules.providers` use for lookup.
- The reason texts in audit entries, error messages and `notMaterializable`; a failing record keeps only its id.
- OmpExtract.ExtractAll: does not model the locale order of the non-primary protocols nor the final sort of records; the records are compared as a multiset.
- The reading of bundled models and seed rows in the extractor, and its verify snapshot: a provider comes with its model rows.
- Arrays inside the frontmatter: a list is a leaf with its text, so a path that indexes into one is not modelled.
- `danglingReferences` and the printed report of the design-system check.
- InsightsStore.CreateInsights: takes one clock reading and one snapshot, where the source reads the SQL and the JS clock apart; dates are day numbers, so text order is number order.
- The repos list and the order by count of severities and verdicts in the insights report.
- Evidence.CollectDeployEvidence: times are whole milliseconds, and a sleep of a negative length is taken as no sleep.
- The wording of evidence sections and the temporary artifact directory.
- `setWorkspacePlan` in the ledger: its before-value is read outside the batch, so chaining would hold for sequential runs only.
- Command-line parsing, file, network and process calls everywhere.
