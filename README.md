# NinjaDAM core, modelled in Dafny

NinjaDAM is a digital asset management server written in C#. Each user uploads
assets, organises them in folders, tags them, gathers them into collections and
download carts, and shares them through expiring links. Accounts belong to
companies and receive roles, groups and permissions.

This project models the rules behind those features and proves properties
about them. Each service becomes one Dafny module. Its repository tables
become sequences held by a class. The methods mutate those tables as the C#
code does, and each method is proved against a specification function of
the old state.

- **Advanced asset search.** Canonical field and operator names; per-field
  predicate builders for strings, file types, sizes, dates, metadata, tags and
  ids; the SQL LIKE predicate with its escaping; the `PredicateBuilder`
  combinators; the AND/OR fold; scoping by company and folder; sorting; paging.
  Every builder is proved against a reference predicate over the asset's
  columns.
- **Asset helpers.** `GetUniqueFileName`, `GetFileType`, setting and removing
  one user metadata key, soft delete and restore with the folder count
  recount, the 30-day purge rule, and the entry names of a ZIP download.
- **Folders.** Create, rename, move (with the level shift of the subtree) and
  recursive delete. The roll-up of asset counts in the folder listing.
- **Permissions and groups.** Sets of user and role grants kept in step with
  a request; role defaults; effective permissions; group naming rules, soft
  delete and permission replacement.
- **Share links.** Expiry validation, viewing and download checks, the
  download counter, revocation, the sweep of expired links, the URL-safe
  token, the share URL, the remaining-time text, and the administrator's
  listing, edit and audit log.
- **Link tables with cached counts.** Visual tags, collections and carts.
- **Names unique once trimmed and lower-cased.** Metadata fields and
  controlled vocabulary values.
- **Accounts.** The user list each requester may see; user creation, update,
  deletion and status, with the self and last-admin guards; sign-in guards
  and claims; self-registration with company reuse; temporary passwords; the
  password history of the last five; the e-mailed one-time code and the
  forgotten-password reset.
- **Object mapping.** The relative path shown for a stored file, and the
  storage tier of a new company.

## Conventions

- C# `null` becomes `Option.None`, but only where null and `""` behave
  differently.
- Exceptions and error returns become `Result.Err`.
- The clock comes in as a `now` parameter, measured in ticks. So do `Random`
  draws, new GUIDs, Identity's answers and password hashes.
- Password checks go through the hasher's answer, a `PasswordVerification`
  (Failed, Success or SuccessRehashNeeded) given as a parameter. Sign-in and
  the current-password checks accept any answer but Failed, written
  `verify(hash, password)` or `Accepts(hasher)`. The reuse checks of the two
  password services count only Success (`PasswordHistory.Reused`).
- In the advanced search and the asset ordering, database string
  comparisons (`=`, `IN`, `LIKE`, `ORDER BY`) go through a character fold
  that stands for the column collation. Every other service's database
  lookups compare strings exactly (see "Left out").
- Strings are sequences of Unicode characters. `string.Length` is counted in
  UTF-16 code units where the source tests it (`Text.Utf16Length`).
- `ToLower` is modelled on ASCII letters (see `Text.Lower` under "## Left out").
- The source escapes the metadata value in its LIKE patterns but not the
  key, and the model keeps that (`SearchBuilders.MetadataKeyWildcard`).
  The correctness theorem of the advanced search therefore assumes that no
  metadata key contains a LIKE wildcard.

## Model

| member | source | states |
|---|---|---|
| SearchDtos.DefaultCondition | NinjaDAM.DTO/Asset/AdvancedSearchDtos.cs:16-27 | a condition built with no arguments searches FileName with the operator "Equals" and has no value, values, range or metadata key |
| SearchDtos.DefaultRequest | NinjaDAM.DTO/Asset/AdvancedSearchDtos.cs:5-14 | a request built with no arguments combines with "AND", has no conditions, asks for page 1 and leaves page size, folder and sorting unset |
| PredicateBuilder.MaxVar | NinjaDAM.Services/Extensions/PredicateBuilder.cs:21-30 | the parameter Compose introduces is larger than every parameter of both sides, so it is fresh |
| PredicateBuilder.True | NinjaDAM.Services/Extensions/PredicateBuilder.cs:8 | `True` is a closed lambda |
| PredicateBuilder.False | NinjaDAM.Services/Extensions/PredicateBuilder.cs:9 | `False` is a closed lambda |
| PredicateBuilder.TrueHolds | NinjaDAM.Services/Extensions/PredicateBuilder.cs:8 | `True` holds of every argument |
| PredicateBuilder.FalseFails | NinjaDAM.Services/Extensions/PredicateBuilder.cs:9 | `False` holds of no argument |
| PredicateBuilder.ReplaceAbsent | NinjaDAM.Services/Extensions/PredicateBuilder.cs:32-52 | the parameter-replacing visitor leaves a body that does not mention the source parameter unchanged |
| PredicateBuilder.ReplaceVars | NinjaDAM.Services/Extensions/PredicateBuilder.cs:43-51 | after the visit the source parameter is gone and the target parameter stands where it stood |
| PredicateBuilder.ReplaceEval | NinjaDAM.Services/Extensions/PredicateBuilder.cs:32-52 | evaluating the rewritten body with the target bound to x gives what the original body gives with the source bound to x |
| PredicateBuilder.AndMeaning | NinjaDAM.Services/Extensions/PredicateBuilder.cs:11-30 | `And(l, r)` is closed and holds of x exactly when l and r both hold of that same x |
| PredicateBuilder.OrMeaning | NinjaDAM.Services/Extensions/PredicateBuilder.cs:16-30 | `Or(l, r)` is closed and holds of x exactly when l or r holds of that same x |
| SearchValues.NormalizeFieldShape | NinjaDAM.Services/Services/AssetService.cs:1394-1401 | a normalised field name holds no space, no underscore and no upper-case ASCII letter |
| SearchValues.NormalizeOperatorShape | NinjaDAM.Services/Services/AssetService.cs:1403-1406 | a normalised operator holds no space and no upper-case ASCII letter, and a missing operator becomes "equals" |
| SearchValues.NormalizeOperatorCanonical | NinjaDAM.Services/Services/AssetService.cs:1403-1406 | an operator already in lower case and without spaces is left as it is |
| SearchValues.RoundHalfEven | NinjaDAM.Services/Services/AssetService.cs:1434 | the result is within half a unit of n/d, a tie goes to the even neighbour, and a non-negative n gives a non-negative result |
| SearchValues.Multiplier | NinjaDAM.Services/Services/AssetService.cs:1420-1426 | the unit multiplier is 1, 1024, 1024² or 1024³ (an unknown or missing unit means bytes) |
| SearchValues.ConvertToBytes | NinjaDAM.Services/Services/AssetService.cs:1408-1435 | a byte count comes back exactly when the value is not blank, parses, and value × multiplier is not negative; it is then within half a byte of value × multiplier, and even when it is exactly half-way |
| SearchValues.Midnight | NinjaDAM.Services/Services/AssetService.cs:1445-1453 | the instant of a parsed date is a UTC midnight |
| SearchValues.ParseIsoDate | NinjaDAM.Services/Services/AssetService.cs:1445-1447 | the exact `yyyy-MM-dd` parse accepts only real calendar dates |
| SearchValues.IsoDateRoundTrip | NinjaDAM.Services/Services/AssetService.cs:1445-1447 | parsing the `yyyy-MM-dd` text of any real date gives that date back |
| SearchValues.ParseDate | NinjaDAM.Services/Services/AssetService.cs:1437-1472 | blank gives null; without endOfDay the result is the instant parsed; with endOfDay it throws exactly when that instant lies on a day DateTime cannot end, and otherwise is the last tick of the instant's day; an exact date gives its midnight, or the last tick of that day |
| SearchValues.ParseInstant | NinjaDAM.Services/Services/AssetService.cs:1439-1465 | blank gives nothing; an exact `yyyy-MM-dd` date gives its UTC midnight; any other text gives what the free-form parser gives |
| SearchValues.MergeRange | NinjaDAM.Services/Services/AssetService.cs:1474-1505 | the explicit range wins; otherwise the first two values; otherwise Value and SecondaryValue when either is not blank; otherwise null |
| Base.DatePart | NinjaDAM.Services/Services/AssetService.cs:1354 | `DateTime.Date` is the midnight at or before the instant, less than a day before it |
| Base.SameDay | NinjaDAM.Services/Services/AssetService.cs:1350-1360 | an instant lies between a day's start and `AddDays(1).AddTicks(-1)` exactly when it is on that day |
| SearchBuilders.StringConditionMeaning | NinjaDAM.Services/Services/AssetService.cs:1088-1111 | a text condition gives a predicate exactly when its trimmed value is not blank; the predicate admits exactly the rows whose column is set and contains, starts with, ends with or equals the trimmed value |
| SearchBuilders.TextComparisonMeaning | NinjaDAM.Services/Services/AssetService.cs:1099-1105 | each text operator's LIKE pattern or equality test holds exactly when the column contains, starts with, ends with or equals the value under the collation |
| SearchBuilders.CleanValuesEmpty | NinjaDAM.Services/Services/AssetService.cs:1115-1125 | the cleaned value list is empty, and no predicate is built, exactly when every value is blank |
| SearchBuilders.CleanValuesMatch | NinjaDAM.Services/Services/AssetService.cs:1115-1131 | a lower-cased column value is in the cleaned list exactly when it matches, under the collation, some non-blank value trimmed and lower-cased |
| SearchBuilders.CleanedHas | NinjaDAM.Services/Services/AssetService.cs:1115-1120 | every non-blank value is in the cleaned list, trimmed and lower-cased |
| SearchBuilders.CleanedFrom | NinjaDAM.Services/Services/AssetService.cs:1115-1120 | every value of the cleaned list comes from a non-blank value |
| SearchBuilders.StringListConditionMeaning | NinjaDAM.Services/Services/AssetService.cs:1113-1135 | a value list gives a predicate exactly when some value is not blank; the predicate admits exactly the rows whose column is set and, lower-cased, equals one of them |
| SearchBuilders.FileSizeConditionMeaning | NinjaDAM.Services/Services/AssetService.cs:1253-1304 | a size condition gives a predicate exactly when its operator's values convert to bytes; the predicate admits the sizes above, below, between (inclusive) or equal to them |
| SearchBuilders.SizeTestMeaning | NinjaDAM.Services/Services/AssetService.cs:1260-1296 | which operator and byte values yield a size test, and what that test admits |
| SearchBuilders.FileSizeRangeSymmetric | NinjaDAM.Services/Services/AssetService.cs:1280-1286 | swapping the two bounds of a `between` size range changes neither whether a predicate is built nor which sizes it admits |
| SearchBuilders.DateConditionMeaning | NinjaDAM.Services/Services/AssetService.cs:1306-1376 | a date condition throws exactly when `before` or `on` names a day DateTime cannot end, or the `To` bound of `between` does; otherwise it gives a predicate exactly when the dates it needs parse; it admits from the start of the day on (`after`), up to the end of the day (`before`), between the bounds in either order or up to or from the one bound that parses (`between`), the whole day (`on`), or the exact instant |
| SearchBuilders.LastDateBeforeThrows | NinjaDAM.Services/Services/AssetService.cs:1322-1328 | `before 9999-12-31` throws, because the day after it is past DateTime.MaxValue |
| SearchBuilders.DayBeforeLastDateBuilds | NinjaDAM.Services/Services/AssetService.cs:1322-1328 | `before 9999-12-30` keeps the rows created up to 9999-12-30T23:59:59.9999999 |
| SearchBuilders.DateBetweenWholeDays | NinjaDAM.Services/Services/AssetService.cs:1329-1340 | a `between` over two exact dates in order, the later one before 9999-12-31, admits exactly the instants whose calendar day lies between them, both days included |
| SearchBuilders.IsoDateParses | NinjaDAM.Services/Services/AssetService.cs:1437-1453 | ParseDate on the `yyyy-MM-dd` text of a date gives its midnight, or, with endOfDay and a day DateTime can end, the last tick of that day |
| SearchBuilders.ValuePatternMeaning | NinjaDAM.Services/Services/AssetService.cs:1156-1172 | each metadata operator's LIKE pattern matches exactly when the key's label is followed by a quoted value equal to, starting with, ending with or containing the value |
| SearchBuilders.MetadataTestMeaning | NinjaDAM.Services/Services/AssetService.cs:1137-1173 | a metadata predicate is built exactly when the trimmed key is not empty and the operator is `isuntagged` or the trimmed value is not empty; what each operator then admits |
| SearchBuilders.MetadataConditionMeaning | NinjaDAM.Services/Services/AssetService.cs:1137-1173 | with a key free of LIKE wildcards, a metadata condition gives a predicate exactly when MetadataBuilds holds, and it admits exactly the rows MetadataAdmits describes |
| SearchBuilders.UntaggedShape | NinjaDAM.Services/Services/AssetService.cs:1147-1153 | `isuntagged` admits the rows with no metadata or whose metadata lacks the key's label |
| SearchBuilders.MetadataKeyWildcard | NinjaDAM.Services/Services/AssetService.cs:1151-1152 | the key goes into the LIKE pattern unescaped, so under a binary collation the key `a_b` finds the label `"axb":` and that row is not reported as untagged |
| SqlLike.EscapeLikeIsEscapeEach | NinjaDAM.Services/Services/AssetService.cs:1384-1392 | the three Replace calls, backslash first, put one escape in front of every backslash, `%` and `_` and change nothing else |
| SqlLike.EscapeEachPlain | NinjaDAM.Services/Services/AssetService.cs:1384-1392 | text without a backslash, `%` or `_` is left unchanged |
| SqlLike.LikeContains | NinjaDAM.Services/Services/AssetService.cs:1101 | `%` + EscapeLike(v) + `%` matches exactly the strings that contain v |
| SqlLike.LikeStartsWith | NinjaDAM.Services/Services/AssetService.cs:1102 | EscapeLike(v) + `%` matches exactly the strings that start with v |
| SqlLike.LikeEndsWith | NinjaDAM.Services/Services/AssetService.cs:1103 | `%` + EscapeLike(v) matches exactly the strings that end with v |
| SqlLike.LikePieces | NinjaDAM.Services/Services/AssetService.cs:1162-1171 | `%p1%...%pn%` with every piece escaped matches exactly the strings that hold p1, ..., pn in this order without overlap |
| SqlLike.LikeEscapedPrefix | NinjaDAM.Services/Services/AssetService.cs:1378-1382 | a pattern that starts with escaped text matches exactly the strings that start with that text and whose rest matches the rest of the pattern |
| SqlLike.LikePercent | NinjaDAM.Services/Services/AssetService.cs:1378-1382 | a leading `%` lets the rest of the pattern match any suffix |
| SearchCompiler.ParsedGuids | NinjaDAM.Services/Services/AssetService.cs:1207-1212 | the parsed tag list holds exactly the identifiers some value parses to |
| SearchCompiler.BuildIdCondition | NinjaDAM.Services/Services/AssetService.cs:1175-1198 | an id condition gives a predicate exactly when some entry of Values or the Value parses as an identifier; it is closed and admits exactly the assets whose Id is one of them |
| SearchCompiler.BuildTagCondition | NinjaDAM.Services/Services/AssetService.cs:1200-1251 | a tag condition gives a predicate exactly when some value parses; it is closed and admits the assets carrying every listed tag (`containsall`) or at least one of them (any other operator) |
| SearchCompiler.AllTagsTest | NinjaDAM.Services/Services/AssetService.cs:1223-1240 | the loop's AndAlso chain over the tags requires every tag seen so far |
| SearchCompiler.AllTagsMeaning | NinjaDAM.Services/Services/AssetService.cs:1223-1240 | the `containsall` lambda is closed and admits exactly the assets carrying every listed tag |
| SearchCompiler.AnyTagMeaning | NinjaDAM.Services/Services/AssetService.cs:1242-1250 | the single `Any` over the tag list admits exactly the assets carrying at least one listed tag |
| SearchCompiler.BuildConditionPredicate | NinjaDAM.Services/Services/AssetService.cs:1062-1086 | it throws exactly when the condition is a date condition on a day DateTime cannot end; otherwise a null condition or an unknown field gives no predicate, a predicate comes back exactly when the field's builder gives one, it is closed, and it admits exactly the rows the condition describes |
| SearchCompiler.MetadataBuildsAnyKey | NinjaDAM.Services/Services/AssetService.cs:1143-1155 | whether a metadata condition gives a predicate does not depend on the characters of its key |
| SearchCompiler.BuildConditionPredicates | NinjaDAM.Services/Services/AssetService.cs:1045-1060 | the enumeration throws exactly when some condition throws; otherwise it gives the predicates of the conditions that build, in order and closed, at most one per condition, none exactly when no condition builds; all of them hold of a row exactly when every building condition admits it, and some holds exactly when some building condition admits it |
| SearchCompiler.CompileNext | NinjaDAM.Services/Services/AssetService.cs:1052-1059 | one condition more: it throws exactly when that condition throws, and otherwise the predicates keep the loop's invariant over the conditions seen so far |
| SearchCompiler.PredicatesStep | NinjaDAM.Services/Services/AssetService.cs:1052-1059 | one iteration of the loop keeps its invariant |
| SearchExecutor.Paginate | NinjaDAM.Services/Services/AssetService.cs:799-820 | the page is at least 1 and Total counts every row; without a positive page size every row comes back and HasMore is false; with one, at most that many rows, taken from offset (page-1)×size |
| SearchExecutor.AdvancedSearch | NinjaDAM.Services/Services/AssetService.cs:745-821 | the call fails exactly when some condition is null (the logging loop reads it first) or some date condition names a day DateTime cannot end; otherwise, when no metadata key holds a LIKE wildcard, the result is the scoped, filtered, sorted and paged rows Expected describes |
| SearchExecutor.SelectAssets | NinjaDAM.Services/Services/AssetService.cs:760-788 | it fails exactly when some condition throws; otherwise the rows selected are those in the caller's company (or with no company), not deleted, in the folder when one is given, and admitted by the combined predicate when one was built |
| SearchExecutor.CombinePredicates | NinjaDAM.Services/Services/AssetService.cs:776-787 | folding from False with Or, or from True with And, gives a closed predicate that holds when some, or every, built predicate does |
| SearchExecutor.CombineStep | NinjaDAM.Services/Services/AssetService.cs:782-785 | one step of the fold keeps it closed and combining the predicates seen so far |
| SearchExecutor.SelectionMatches | NinjaDAM.Services/Services/AssetService.cs:760-788 | scoping and then filtering by the combined predicate selects exactly the rows the conditions admit under the request's logic |
| SearchExecutor.SelectionUnfiltered | NinjaDAM.Services/Services/AssetService.cs:789-795 | with no predicate built, the scope alone selects the rows |
| SearchExecutor.UnbuiltConditionsKeepScope | NinjaDAM.Services/Services/AssetService.cs:789-795 | when no condition yields a predicate, every row in scope is returned, whatever the logic |
| SearchExecutor.ExpectedSound | NinjaDAM.Services/Services/AssetService.cs:760-788 | every row returned is in the caller's scope and passes the conditions |
| SearchExecutor.ExpectedOrdered | NinjaDAM.Services/Services/AssetService.cs:797 | the rows come back in the order ApplySorting chooses |
| SearchExecutor.ExpectedUnpaged | NinjaDAM.Services/Services/AssetService.cs:799-820 | without paging, every matching row comes back exactly once, Total counts them and HasMore is false |
| SearchExecutor.ExpectedHasMore | NinjaDAM.Services/Services/AssetService.cs:804-819 | with a page size, HasMore holds exactly when the next page is not empty, and Total is the number of matching rows |
| SearchExecutor.PaginateHasMore | NinjaDAM.Services/Services/AssetService.cs:819 | `page * pageSize < total` holds exactly when the next page has rows |
| SearchExecutor.Wrap32 | NinjaDAM.Services/Services/AssetService.cs:808-819 | C#'s unchecked `int` product: a signed 32-bit value congruent to the exact product modulo 2^32, equal to it when it fits |
| SearchExecutor.HasMoreWraps | NinjaDAM.Services/Services/AssetService.cs:808-819 | as written, page 32768 of size 65536 over one row reports more rows: the offset 32767 × 65536 fits in 32 bits, so the page asked for is empty, while the product 2^31 wraps to -2^31 |
| Seqs.PagesCover | NinjaDAM.Services/Services/AssetService.cs:806-810 | the first k pages of size n are the first k×n rows: pages neither overlap nor leave gaps |
| Seqs.NextPageNonEmpty | NinjaDAM.Services/Services/AssetService.cs:819 | there is a page after page `page` of size n exactly when page×n is less than the row count |
| AssetOrder.ApplySorting | NinjaDAM.Services/Services/AssetService.cs:1012-1043 | the order is ascending exactly when the trimmed, lower-cased direction is "asc"; `Metadata.<key>` (any case, trimmed key not empty) sorts by that entry; name, size, type and deletedat pick their column; anything else sorts by creation time |
| AssetOrder.DirectionIgnoresCase | NinjaDAM.Services/Services/AssetService.cs:1015 | the direction depends on the direction text only up to case and surrounding spaces |
| AssetOrder.KeyLeTotal | NinjaDAM.Services/Services/AssetService.cs:1026-1041 | any two sort keys are comparable, with NULL first |
| AssetOrder.KeyLeTrans | NinjaDAM.Services/Services/AssetService.cs:1026-1041 | the key order is transitive |
| AssetOrder.BeforeTotal | NinjaDAM.Services/Services/AssetService.cs:1026-1041 | any two assets are comparable in a chosen order, ascending or descending |
| AssetOrder.BeforeTrans | NinjaDAM.Services/Services/AssetService.cs:1026-1041 | the order on assets is transitive |
| AssetOrder.SortAssets | NinjaDAM.Services/Services/AssetService.cs:1026-1041 | OrderBy and OrderByDescending return a permutation of the rows sorted by the chosen key |
| FileNames.StemAndExtension | NinjaDAM.Services/Services/AssetService.cs:1509-1510 | for a file name without directory, the name without extension followed by the extension is the name itself |
| FileNames.NumberedInjective | NinjaDAM.Services/Services/AssetService.cs:1516 | two different counters give different candidate names, whatever the case |
| FileNames.CandidatesBound | NinjaDAM.Services/Services/AssetService.cs:1514-1518 | if the candidates 1..k are all taken, at least k names are taken, so the loop stops |
| FileNames.GetUniqueFileName | NinjaDAM.Services/Services/AssetService.cs:1507-1521 | the name returned is not taken in lower case; it is the file name itself when that is free, and otherwise "name (n).ext" for the smallest n ≥ 1 whose name is free |
| FileNames.SearchStep | NinjaDAM.Services/Services/AssetService.cs:1514-1518 | one iteration of the loop keeps its invariant: every earlier candidate is taken |
| FileTypes.GetFileType | NinjaDAM.Services/Services/AssetService.cs:1523-1550 | the type is one of image, video, audio, document, archive or other |
| FileTypes.MimeFileType | NinjaDAM.Services/Services/AssetService.cs:1542-1549 | the MIME fallback gives one of the same six types |
| FileTypes.ExtensionWins | NinjaDAM.Services/Services/AssetService.cs:40-57 | an extension in the image, video or audio table decides the type, ignoring case, whatever the MIME type says |
| FileTypes.UnknownExtensionUsesMime | NinjaDAM.Services/Services/AssetService.cs:1523-1550 | without a known extension the MIME type alone decides |
| AssetLifecycle.UpdateEach | NinjaDAM.Services/Services/AssetService.cs:554-561 | the foreach rewrites exactly the targeted rows, leaves every other row as it was, and counts the rows it rewrote |
| AssetLifecycle.StoredMetadata | NinjaDAM.Services/Services/AssetService.cs:399-412 | a null or empty blob starts from the empty dictionary |
| AssetLifecycle.EditedMetadata | NinjaDAM.Services/Services/AssetService.cs:414-424 | a null or empty value removes the key, any other value sets it, and no other entry changes |
| AssetLifecycle.LastEditWins | NinjaDAM.Services/Services/AssetService.cs:414-424 | editing one key twice leaves only the second edit |
| AssetLifecycle.ClearUndoesSet | NinjaDAM.Services/Services/AssetService.cs:414-424 | clearing a key that was absent before it was set gives back the original dictionary |
| AssetLifecycle.MetadataUpdated | NinjaDAM.Services/Services/AssetService.cs:399-428 | an edited asset differs from the original only in UserMetadata, which holds the edited dictionary serialised, and in UpdatedAt, which is `now` |
| AssetLifecycle.MetadataReadsBack | NinjaDAM.Services/Services/AssetService.cs:399-428 | when the serialiser round-trips, the blob written reads back as the edited dictionary |
| AssetLifecycle.MetadataUpdateIdempotent | NinjaDAM.Services/Services/AssetService.cs:383-436 | repeating the same update at the same instant changes nothing more |
| AssetLifecycle.AssetStore.UpdateAssetsMetadata | NinjaDAM.Services/Services/AssetService.cs:383-436 | every requested asset the caller owns, or that belongs to the caller's company, gets the key edit, every other asset and every folder count is unchanged, and the result is the number edited |
| AssetLifecycle.Recounted | NinjaDAM.Services/Services/AssetService.cs:516-529 | the count of every existing folder among those touched is recomputed as the number of live assets in it; other folders keep their counts and no folder is added |
| AssetLifecycle.SoftDeleted | NinjaDAM.Services/Services/AssetService.cs:508-509 | a deleted asset is marked deleted at `now` and lies outside every search scope |
| AssetLifecycle.Restored | NinjaDAM.Services/Services/AssetService.cs:869-870 | a restored asset is live again with no deletion time |
| AssetLifecycle.RestoreUndoesDelete | NinjaDAM.Services/Services/AssetService.cs:853-889 | restoring a soft-deleted asset gives back the live asset it was |
| AssetLifecycle.SoftDeleteCount | NinjaDAM.Services/Services/AssetService.cs:516-529 | a soft delete takes one asset out of its folder's live count, a restore puts it back, and no other folder's count moves |
| AssetLifecycle.RestoreFindsDeleted | NinjaDAM.Services/Services/AssetService.cs:853-868 | with unique ids, the asset a delete marked is the one a restore with the same arguments finds, and restoring it undoes the delete |
| AssetLifecycle.AssetStore.DeleteAsset | NinjaDAM.Services/Services/AssetService.cs:491-535 | no asset with that id within the caller's reach gives false and changes nothing; otherwise that asset is soft-deleted, its folder is recounted, and nothing else changes |
| AssetLifecycle.AssetStore.RestoreAsset | NinjaDAM.Services/Services/AssetService.cs:853-889 | no deleted asset with that id within reach gives false and changes nothing; otherwise it is restored, its folder is recounted, and nothing else changes |
| AssetLifecycle.AssetStore.DeleteAssets | NinjaDAM.Services/Services/AssetService.cs:537-585 | false and no change when no requested asset is within reach; otherwise exactly the requested assets within reach are soft-deleted and their folders recounted |
| AssetLifecycle.AssetStore.RestoreAssets | NinjaDAM.Services/Services/AssetService.cs:891-930 | false and no change when no requested deleted asset is within reach; otherwise exactly those are restored and their folders recounted |
| AssetLifecycle.PurgeCutoff | NinjaDAM.Services/Services/AssetService.cs:985-989 | the 30-day cutoff is strict: an asset deleted exactly 30 days before stays, one deleted a tick earlier goes |
| AssetLifecycle.PurgeKeepsLiveCounts | NinjaDAM.Services/Services/AssetService.cs:983-1010 | the purge removes only deleted assets, so no folder's live count changes |
| AssetLifecycle.PurgeLeavesNothing | NinjaDAM.Services/Services/AssetService.cs:983-1010 | after a purge in which no file deletion failed, a second purge at the same instant finds nothing |
| AssetLifecycle.AssetStore.PurgeExpired | NinjaDAM.Services/Services/AssetService.cs:983-1010 | every asset deleted more than 30 days before `now` is removed unless its file deletion throws, every other row stays in order, the folder counts are untouched, and the result counts every expired asset |
| Folders.FolderIndex | NinjaDAM.Services/Services/FolderService.cs:278-280 | the lookup by id finds a folder with that id, or -1 exactly when none has it |
| Folders.OwnedIndex | NinjaDAM.Services/Services/FolderService.cs:225-227 | the lookup by id and owner finds a folder with both, or -1 exactly when none has both |
| Folders.AboveLowers | NinjaDAM.Services/Services/FolderService.cs:282-291 | every folder on the parent chain above a folder sits at a lower level, so the walk ends |
| Folders.NotAboveItself | NinjaDAM.Services/Services/FolderService.cs:276-294 | in a well-levelled tree no folder lies above itself |
| Folders.FolderStore.IsDescendantOf | NinjaDAM.Services/Services/FolderService.cs:276-294 | the walk up the ParentId chain from the candidate answers true exactly when the folder lies above the candidate |
| Folders.Moved | NinjaDAM.Services/Services/FolderService.cs:259-269 | the moved folder takes the new parent and level, every folder below it shifts by the same number of levels, and no other row changes |
| Folders.MovedValid | NinjaDAM.Services/Services/FolderService.cs:259-314 | a move to a proper target keeps ids unique, parents present, every child one level below its parent and the owner of each child its parent's owner |
| Folders.MoveRejectedAsWritten | NinjaDAM.Services/Services/FolderService.cs:235-239 | the guard as written rejects only a move under an existing folder, and never a move of a folder under itself |
| Folders.SelfNotDescendant | NinjaDAM.Services/Services/FolderService.cs:275-292 | in a well-levelled table `IsDescendantOf(f, f)` is false: the walk starts at the candidate's parent, so a folder is never found among its own ancestors |
| Folders.MoveRejected | NinjaDAM.Services/Services/FolderService.cs:235-239 | the corrected guard rejects everything the guard as written rejects, and also a move of a folder into itself |
| Folders.SelfMoveSlipsThrough | NinjaDAM.Services/Services/FolderService.cs:235-239 | as written, moving a folder into itself passes the guard and leaves a row that is its own parent, so the table is no longer well levelled |
| Folders.TargetAccepted | NinjaDAM.Services/Services/FolderService.cs:236-261 | a target that passes the corrected guard is a proper one, so the move keeps the tree valid |
| Folders.FolderStore.MoveFolder | NinjaDAM.Services/Services/FolderService.cs:223-274 | an unknown folder gives false; a target that is the folder or lies below it is refused, as is a target the user does not own; otherwise the folder and its subtree are re-levelled under the new parent and the assets are untouched |
| Folders.FolderStore.CreateFolder | NinjaDAM.Services/Services/FolderService.cs:109-148 | a parent the user does not own is refused with no change; otherwise one folder is appended, one level below its parent or at the requested level (0 when none) at the root, with count 0 and both times `now` |
| Folders.FolderStore.RenameFolder | NinjaDAM.Services/Services/FolderService.cs:150-170 | an unknown folder is refused with no change; otherwise only its name and update time change |
| Folders.SubtreeIds | NinjaDAM.Services/Services/FolderService.cs:91-107 | the ids collected are the folder's and those of every folder below it |
| Folders.ChildOfRemoved | NinjaDAM.Services/Services/FolderService.cs:204-213 | a child of a removed folder is removed as well |
| Folders.SubtreeRemovedValid | NinjaDAM.Services/Services/FolderService.cs:172-221 | removing a folder together with everything below it leaves a valid tree |
| Folders.FolderStore.DeleteFolder | NinjaDAM.Services/Services/FolderService.cs:172-221 | true exactly when the user owns the folder; then it, every folder below it and every asset in any of them are removed and nothing else is; otherwise nothing changes |
| FolderCounts.FolderById | NinjaDAM.Services/Services/FolderService.cs:69-89 | no result exactly when the user owns no folder with that id; otherwise that folder with the count of its live assets, whoever owns them |
| FolderCounts.DirectWithinFolderCount | NinjaDAM.Services/Services/FolderService.cs:41-47 | the listing's count of the owner's live assets in a folder never exceeds the single-folder count, and equals it when every live asset there is the owner's |
| FolderCounts.LevelThenNameOrders | NinjaDAM.Services/Services/FolderService.cs:35-36 | ordering by level and then by name is a total preorder |
| FolderCounts.LevelDescOrders | NinjaDAM.Services/Services/FolderService.cs:55 | ordering by level descending is a total preorder |
| FolderCounts.ListingOrder | NinjaDAM.Services/Services/FolderService.cs:32-37 | the listing holds exactly the user's folders, each as often as stored, sorted by level and then name |
| FolderCounts.WellLeveledIncreases | NinjaDAM.Services/Services/FolderService.cs:55-63 | in a well-levelled tree every child sits at a deeper level than its parent |
| FolderCounts.ParentLater | NinjaDAM.Services/Services/FolderService.cs:55-63 | in the deepest-first order no folder's parent comes before it |
| FolderCounts.DirectCounts | NinjaDAM.Services/Services/FolderService.cs:41-52 | each folder starts from the number of the user's live assets directly in it |
| FolderCounts.AddToParents | NinjaDAM.Services/Services/FolderService.cs:57-63 | adding each folder's count to its parent, deepest first, leaves every folder with the count of its own subtree |
| FolderCounts.RollStep | NinjaDAM.Services/Services/FolderService.cs:57-63 | one iteration of the roll-up keeps its invariant |
| FolderCounts.UserFolders | NinjaDAM.Services/Services/FolderService.cs:30-67 | the user's folders by level then name, each carrying the number of the user's live assets in it and in every folder below it |
| Permissions.ByNameOrders | NinjaDAM.Services/Services/PermissionService.cs:44 | ordering by permission name is a total preorder |
| Permissions.AllPermissions | NinjaDAM.Services/Services/PermissionService.cs:40-48 | the list holds exactly the permissions not deleted, each as often as stored, sorted by name |
| Permissions.PermissionById | NinjaDAM.Services/Services/PermissionService.cs:50-61 | found exactly when a permission with the id is not deleted; otherwise the not-found error |
| Permissions.Updated | NinjaDAM.Services/Services/PermissionService.cs:87-92 | each supplied field is written, each missing one kept, the id and creation time stay and the update time is `now` |
| Permissions.UpdateNothing | NinjaDAM.Services/Services/PermissionService.cs:87-92 | an update with no field supplied only touches the update time |
| Permissions.DeleteLookupAgrees | NinjaDAM.Services/Services/PermissionService.cs:100-108 | looking up by id and then testing IsDeleted refuses exactly the ids GetPermissionByIdAsync does not find |
| Permissions.SoftDeletedInvisible | NinjaDAM.Services/Services/PermissionService.cs:110-111 | after a soft delete the permission is neither found, nor listed, nor usable |
| Permissions.PermissionStore.CreatePermission | NinjaDAM.Services/Services/PermissionService.cs:63-75 | one row is appended, not deleted, created and updated at `now` |
| Permissions.PermissionStore.UpdatePermission | NinjaDAM.Services/Services/PermissionService.cs:77-98 | a missing or deleted permission is not found and nothing changes; otherwise only that row is rewritten with the supplied fields |
| Permissions.PermissionStore.DeletePermission | NinjaDAM.Services/Services/PermissionService.cs:100-115 | succeeds exactly when GetPermissionByIdAsync would find the permission; it is then marked deleted at `now` and nothing else changes |
| Permissions.HeldIdsMembers | NinjaDAM.Services/Services/PermissionService.cs:120-125 | an id is among the holder's existing ids exactly when the holder has a row for it |
| Permissions.NewGrantsOnce | NinjaDAM.Services/Services/PermissionService.cs:141-151 | without duplicate ids, each added row occurs once |
| Permissions.SyncGrants | NinjaDAM.Services/Services/PermissionService.cs:117-154 | reading the holder's rows, computing toAdd and toRemove with Except, deleting the rows of toRemove and adding a row per toAdd id gives the synced table |
| Permissions.RemovedIsNotRetained | NinjaDAM.Services/Services/PermissionService.cs:128-138 | the rows the toRemove test deletes are exactly the holder's rows for ids not requested |
| Permissions.SyncedHolds | NinjaDAM.Services/Services/PermissionService.cs:117-154 | after the sync the holder has a row for an id exactly when that id was requested |
| Permissions.SyncedHeldIds | NinjaDAM.Services/Services/PermissionService.cs:117-154 | after the sync the holder's ids are exactly the requested ones |
| Permissions.SyncedOthers | NinjaDAM.Services/Services/PermissionService.cs:120-122 | the rows of every other holder are untouched, in their order |
| Permissions.SyncedKeepsShared | NinjaDAM.Services/Services/PermissionService.cs:127-128 | a requested id the holder already had keeps its rows: it is neither deleted nor added again |
| Permissions.SyncedNoDuplicate | NinjaDAM.Services/Services/PermissionService.cs:117-154 | a holder with at most one row per id keeps at most one row per id |
| Permissions.SyncedIdempotent | NinjaDAM.Services/Services/PermissionService.cs:117-154 | repeating the same assignment changes nothing |
| Permissions.PermissionStore.AssignPermissionsToUser | NinjaDAM.Services/Services/PermissionService.cs:117-154 | the user grant table becomes the synced table and every other table is unchanged |
| Permissions.PermissionStore.AssignPermissionsToRole | NinjaDAM.Services/Services/PermissionService.cs:229-276 | the role grant table becomes the synced table and every other table is unchanged |
| Permissions.DefaultsFor | NinjaDAM.Services/Services/PermissionService.cs:158-183 | the defaults are active permissions, not deleted |
| Permissions.DefaultsMembers | NinjaDAM.Services/Services/PermissionService.cs:161-183 | an Admin gets every usable permission, an Editor those marked Editor or Viewer, a Viewer those marked Viewer, any other role none |
| Permissions.DefaultsNested | NinjaDAM.Services/Services/PermissionService.cs:161-183 | a Viewer's defaults are an Editor's, and an Editor's are an Admin's |
| Permissions.PermissionStore.AssignDefaultPermissions | NinjaDAM.Services/Services/PermissionService.cs:156-197 | one row per default of the role is appended to the user's rows and every other table is unchanged |
| Permissions.DefaultsHeld | NinjaDAM.Services/Services/PermissionService.cs:185-196 | after the defaults are assigned the user holds each of them |
| Permissions.Granted | NinjaDAM.Services/Services/PermissionService.cs:202-206 | the join keeps only usable permissions, and an id is listed exactly when it is granted and usable |
| Permissions.DistinctById | NinjaDAM.Services/Services/PermissionService.cs:221-224 | GroupBy on Id then First keeps one entry per id, taken from the input, and loses no id |
| Permissions.DistinctByIdFirst | NinjaDAM.Services/Services/PermissionService.cs:221-224 | the entry kept for an id is its first occurrence |
| Permissions.DistinctByIdUnique | NinjaDAM.Services/Services/PermissionService.cs:221-224 | entries with distinct ids are kept as they are |
| Permissions.GroupsOfMembers | NinjaDAM.Services/Services/PermissionService.cs:209-212 | a group is among the user's groups exactly when the user has a membership row for it |
| Permissions.GroupPermissionIds | NinjaDAM.Services/Services/PermissionService.cs:214-218 | an id is listed exactly when one of the groups has a row for it |
| Permissions.UserPermissionIds | NinjaDAM.Services/Services/PermissionService.cs:199-227 | a user has a permission exactly when it is usable and granted to the user directly or to one of the user's groups, and no id appears twice |
| Permissions.DirectPermissionsFirst | NinjaDAM.Services/Services/PermissionService.cs:221-224 | the user's distinct direct permissions open the merged list |
| Permissions.RolePermissions | NinjaDAM.Services/Services/PermissionService.cs:278-287 | the role's permissions are usable ones, and an id is listed exactly when the role has a row for it and it is usable |
| Groups.NameOf | NinjaDAM.Services/Services/GroupService.cs:69 | a missing name becomes "" and any other is trimmed |
| Groups.NameCheckPasses | NinjaDAM.Services/Services/GroupService.cs:69-84 | a name passes exactly when it is not "viewer" in any case and no other live group of the company has it, ignoring case |
| Groups.AddedValid | NinjaDAM.Services/Services/GroupService.cs:86-95 | appending a group whose name passed the check keeps the live names of each company distinct |
| Groups.ReplacedValid | NinjaDAM.Services/Services/GroupService.cs:110-137 | rewriting a group whose name is unchanged or passed the check keeps the invariant |
| Groups.DeletedValid | NinjaDAM.Services/Services/GroupService.cs:152-156 | marking a group deleted keeps the invariant |
| Groups.AllGroups | NinjaDAM.Services/Services/GroupService.cs:38-49 | nothing for a user without a company; otherwise exactly the company's live groups, newest first |
| Groups.GroupById | NinjaDAM.Services/Services/GroupService.cs:51-62 | unauthorised without a company; otherwise the company's live group with that id, or the not-found error |
| Groups.DeletedInvisible | NinjaDAM.Services/Services/GroupService.cs:142-159 | a deleted group is neither listed nor found, so it can be neither updated, deleted again nor given permissions |
| Groups.PermissionsByGroupId | NinjaDAM.Services/Services/GroupService.cs:194-210 | fails exactly as GroupById does; otherwise the permission ids of the group's rows, in table order |
| Groups.ReplacedPermissions | NinjaDAM.Services/Services/GroupService.cs:171-189 | the group's permission list becomes exactly the given list, duplicates included |
| Groups.AssignedReadBack | NinjaDAM.Services/Services/GroupService.cs:161-210 | reading a group's permissions back after assigning them returns the list as given |
| Groups.ReplacedOthers | NinjaDAM.Services/Services/GroupService.cs:172-179 | other groups keep their rows, in order |
| Groups.ReplacedIdempotent | NinjaDAM.Services/Services/GroupService.cs:161-192 | reassigning the same list gives the same table |
| Groups.GroupStore.CreateGroup | NinjaDAM.Services/Services/GroupService.cs:64-98 | unauthorised without a company; the reserved name and a clash are refused with no change; otherwise one live group of the company is appended with the trimmed name, created and updated at `now` |
| Groups.GroupStore.UpdateGroup | NinjaDAM.Services/Services/GroupService.cs:100-140 | unauthorised without a company, not found for a missing group, refused for a bad non-blank name, with no change in each case; otherwise only the name (when not blank), IsActive (when supplied) and the update time change |
| Groups.GroupStore.DeleteGroup | NinjaDAM.Services/Services/GroupService.cs:142-159 | unauthorised without a company; false with no change when there is no such live group; otherwise it is marked deleted at `now` |
| Groups.GroupStore.AssignPermissionsToGroup | NinjaDAM.Services/Services/GroupService.cs:161-192 | fails with no change exactly when GroupById fails; otherwise the group's rows are replaced by one per given id |
| Groups.AddGroupRows | NinjaDAM.Services/Services/GroupService.cs:182-189 | the AddAsync loop appends one row per id, in order |
| ShareRules.ExpiryWindow | NinjaDAM.Services/Services/AssetShareService.cs:52-96 | a custom date is accepted exactly inside [now + 1 day, now + 1 year] and kept as given; an hour count (168 when missing) is accepted exactly inside [24, 8760] and added to `now` |
| ShareRules.ExpiryAhead | NinjaDAM.Services/Services/AssetShareService.cs:52-96 | every accepted expiry lies at least one day after `now` |
| ShareRules.DefaultExpiry | NinjaDAM.Services/Services/AssetShareService.cs:81-95 | without a date or an hour count a link lives seven days |
| ShareRules.RemainingOf | NinjaDAM.Services/Services/AssetShareService.cs:255-275 | the whole number of days, hours or minutes left is the first unit of which at least one fits, and it is truncated, not rounded |
| ShareRules.DescribeInjective | NinjaDAM.Services/Services/AssetShareService.cs:259-274 | different remaining lifetimes are shown as different texts, so the text can be read back |
| ShareRules.TimeRemainingExpired | NinjaDAM.Services/Services/AssetShareService.cs:255-275 | a link shows "Expired" exactly when less than a minute is left |
| ShareRules.SecureTokenIsUrlSafe | NinjaDAM.Services/Services/AssetShareService.cs:232-243 | the three chained Replace calls are the per-character rewriting `+`→`-`, `/`→`_`, `=` dropped |
| ShareRules.UrlSafeAlphabet | NinjaDAM.Services/Services/AssetShareService.cs:239-242 | the token of standard Base64 text uses only the URL-safe alphabet of section 5 of RFC 4648, with no padding |
| ShareRules.UrlSafeInverse | NinjaDAM.Services/Services/AssetShareService.cs:239-242 | undoing the character swap gives back the Base64 text without its padding: the rewriting loses only the `=` characters |
| ShareRules.UrlSafePadding | NinjaDAM.Services/Services/AssetShareService.cs:242 | trailing padding has no effect on the token |
| ShareRules.ShareUrl | NinjaDAM.Services/Services/AssetShareService.cs:245-253 | the share URL ends with "/" followed by the token |
| ShareRules.ShareUrlToken | NinjaDAM.Services/Services/AssetShareService.cs:245-253 | the token is the last path segment of its share URL, since a URL-safe token has no `/` |
| ShareLinks.TokenIndex | NinjaDAM.Entity/Repositories/AssetShareLinkRepository.cs:18-23 | the lookup by token finds the first link with that token, or -1 exactly when none has it |
| ShareLinks.IdIndex | NinjaDAM.Services/Services/AssetShareService.cs:169 | the lookup by id finds a link with that id, or -1 exactly when none has it |
| ShareLinks.NewestFirstOrders | NinjaDAM.Entity/Repositories/AssetShareLinkRepository.cs:31 | ordering by creation time descending is a total preorder |
| ShareLinks.ActiveLinks | NinjaDAM.Entity/Repositories/AssetShareLinkRepository.cs:25-33 | the list holds exactly the target's links that are active and not yet expired, newest first |
| ShareLinks.RevokedAll | NinjaDAM.Entity/Repositories/AssetShareLinkRepository.cs:35-48 | after the sweep no link is active and expired; each such link is now inactive with RevokedAt `now`, and every other link is unchanged |
| ShareLinks.RevokeIdempotent | NinjaDAM.Entity/Repositories/AssetShareLinkRepository.cs:35-48 | a second sweep at the same instant changes nothing and writes no row |
| ShareLinks.SweepStep | NinjaDAM.Entity/Repositories/AssetShareLinkRepository.cs:41-45 | one iteration of the sweep keeps its invariant |
| ShareLinks.ShareLinkStore.RevokeExpiredLinks | NinjaDAM.Entity/Repositories/AssetShareLinkRepository.cs:35-48 | the table becomes the swept table, the other table and the log are unchanged, and the result is the number of rows written |
| ShareService.CreateShareLink | NinjaDAM.Services/Services/AssetShareService.cs:38-126 | a missing target and a target the user does not own are refused, then a bad expiry; otherwise one live link is appended with the URL-safe token, the accepted expiry, no downloads yet, created by the user at `now`, and a download limit only for asset links |
| ShareService.SharedView | NinjaDAM.Services/Services/AssetShareService.cs:128-165 | an unknown token gives nothing; a revoked or expired link is refused, and so is an asset link whose downloads have reached the limit; otherwise the link itself |
| ShareService.IncrementDownloadCount | NinjaDAM.Services/Services/AssetShareService.cs:211-225 | the table becomes the counted table; the other table and the log are unchanged |
| ShareService.CountedChangesOne | NinjaDAM.Services/Services/AssetShareService.cs:213-223 | only the link with the token changes, by one download, and it changes exactly when it is live and under its limit |
| ShareService.CountedWithinLimit | NinjaDAM.Services/Services/AssetShareService.cs:218 | counting never pushes an asset link past its download limit |
| ShareService.RevokeShareLink | NinjaDAM.Services/Services/AssetShareService.cs:167-189 | an unknown id gives false with no change; only the owner of the target may revoke; the link then becomes inactive, revoked at `now`, and nothing else changes |
| ShareService.RevokedRefused | NinjaDAM.Services/Services/AssetShareService.cs:138-141 | once revoked, a link's token is refused from then on |
| ShareService.ActiveShareLinks | NinjaDAM.Services/Services/AssetShareService.cs:191-209 | only the owner may list; the owner gets exactly the target's live links |
| ShareService.DownloadFromSharedCollection | NinjaDAM.Services/Services/CollectionShareService.cs:216-267 | an unknown, revoked or expired link and a link without downloads are refused and an asset outside the collection gives nothing, all with no change; otherwise the count rises by one before the file is looked for, so a missing file still counts |
| AdminShareLinks.ParseKind | NinjaDAM.Services/Services/AdminShareLinkService.cs:120-134 | the type text names asset links exactly when it equals "Asset" ignoring case, and collection links exactly when it equals "Collection" ignoring case |
| AdminShareLinks.ActiveByAge | NinjaDAM.Services/Services/AdminShareLinkService.cs:51-55 | one row per active link of the table, newest first |
| AdminShareLinks.AdminListingSize | NinjaDAM.Services/Services/AdminShareLinkService.cs:46-113 | the listing has one row per active link of either table and is sorted newest first |
| AdminShareLinks.ListingAssetRows | NinjaDAM.Services/Services/AdminShareLinkService.cs:57-79 | an asset row is listed exactly for an active asset link, as stored |
| AdminShareLinks.ListingCollectionRows | NinjaDAM.Services/Services/AdminShareLinkService.cs:88-110 | a collection row is listed exactly for an active collection link, shown without a download limit |
| AdminShareLinks.DeleteShareLink | NinjaDAM.Services/Services/AdminShareLinkService.cs:115-157 | for a known type and an existing id the link is deactivated with RevokedAt `now` and one "Deleted" record is logged with the type text as given; otherwise nothing changes |
| AdminShareLinks.Changes | NinjaDAM.Services/Services/AdminShareLinkService.cs:169-198 | the change list is empty exactly when neither a new expiry nor, for asset links, a new download limit is asked for; the expiry change comes first |
| AdminShareLinks.Updated | NinjaDAM.Services/Services/AdminShareLinkService.cs:169-198 | the new expiry is written when given, the new limit only for asset links, and nothing else of the link changes |
| AdminShareLinks.UpdateSettles | NinjaDAM.Services/Services/AdminShareLinkService.cs:159-218 | a request applied once has nothing left to change, so sending it again reports no success and logs nothing |
| AdminShareLinks.NoChangesNoUpdate | NinjaDAM.Services/Services/AdminShareLinkService.cs:181-186 | the link is rewritten exactly when there are changes |
| AdminShareLinks.UpdateShareLink | NinjaDAM.Services/Services/AdminShareLinkService.cs:159-218 | succeeds exactly when the type is known, the link exists and something changes; the link is then rewritten and one "Updated" record lists the changes; otherwise nothing changes |
| AdminShareLinks.AuditLogs | NinjaDAM.Services/Services/AdminShareLinkService.cs:220-244 | at most `limit` records (100 by default) of the log, of the given link when one is given, newest first; they are the newest such records: no matching record left out is newer than one returned |
| AdminShareLinks.MatchingByAge | NinjaDAM.Services/Services/AdminShareLinkService.cs:222-228 | the records of the given link (all records without one), each kept with its multiplicity, newest first |
| VisualTags.NameFree | NinjaDAM.Services/Services/VisualTagService.cs:66-73 | the duplicate-name lookup finds nothing exactly when no tag of the user (other than the one being edited) has the same trimmed, lower-cased name |
| VisualTags.AddedTagValid | NinjaDAM.Services/Services/VisualTagService.cs:63-89 | adding a tag with a fresh id and a free name keeps ids unique and each user's name keys distinct |
| VisualTags.ReplacedTagValid | NinjaDAM.Services/Services/VisualTagService.cs:91-123 | renaming a tag to a name free among the user's other tags keeps ids unique and name keys distinct |
| VisualTags.RemovedTagValid | NinjaDAM.Services/Services/VisualTagService.cs:125-154 | removing a tag keeps the table valid and leaves no tag with the removed id |
| VisualTags.ByNameOrders | NinjaDAM.Services/Services/VisualTagService.cs:42 | ordering by name is a total preorder when the name comparison is |
| VisualTags.UserTags | NinjaDAM.Services/Services/VisualTagService.cs:37-46 | the result is a permutation of the user's tags, holds exactly the tags owned by the user, and is sorted by name |
| VisualTags.TagById | NinjaDAM.Services/Services/VisualTagService.cs:48-61 | a tag is returned exactly when one with that id belongs to the user, and it is that tag |
| VisualTags.LinkedTags | NinjaDAM.Services/Services/VisualTagService.cs:294-298 | every joined tag is a stored tag that some link points to |
| VisualTags.LinkedTagsCover | NinjaDAM.Services/Services/VisualTagService.cs:294-298 | every stored tag some link points to appears in the join |
| VisualTags.TagsOfAsset | NinjaDAM.Services/Services/VisualTagService.cs:281-303 | nothing when the asset is not the user's; otherwise only tags linked to that asset, sorted by name |
| VisualTags.TagsOfAssetShowsLinks | NinjaDAM.Services/Services/VisualTagService.cs:294-300 | when the asset is the user's, every tag linked to it is listed |
| VisualTags.AssetIdsOfTag | NinjaDAM.Services/Services/VisualTagService.cs:305-325 | nothing when the tag is not the user's; otherwise exactly the assets linked to the tag |
| VisualTags.StampedMembers | NinjaDAM.Services/Services/VisualTagService.cs:183-189 | a pair is in the existing set exactly when some stored link joins that asset and tag, whatever its assignment time |
| VisualTags.NewLinksMembers | NinjaDAM.Services/Services/VisualTagService.cs:192-212 | a link is created exactly for each requested asset and requested tag not already linked, stamped with the call's time |
| VisualTags.NewLinksNone | NinjaDAM.Services/Services/VisualTagService.cs:193-212 | when every requested pair is already linked, nothing is created |
| VisualTags.AssignedAllLinked | NinjaDAM.Services/Services/VisualTagService.cs:183-212 | after an assignment every requested asset is linked to every requested tag |
| VisualTags.AssignAgainAddsNothing | NinjaDAM.Services/Services/VisualTagService.cs:183-212 | repeating the same assignment, at any time, creates no links |
| VisualTags.InsertRow | NinjaDAM.Services/Services/VisualTagService.cs:195-211 | the inner loop appends exactly the new links for one asset and counts them |
| VisualTags.InsertLinks | NinjaDAM.Services/Services/VisualTagService.cs:193-212 | the nested loops append exactly the new links for all requested pairs and return their number |
| VisualTags.RecountedValid | NinjaDAM.Services/Services/VisualTagService.cs:219-224 | recounting keeps ids unique and name keys distinct |
| VisualTags.Recount | NinjaDAM.Services/Services/VisualTagService.cs:219-224 | the recount loop leaves the table equal to the recounted table |
| VisualTags.RecountedCounts | NinjaDAM.Services/Services/VisualTagService.cs:261-272 | after a recount every listed tag of the user caches exactly the number of links that point to it |
| VisualTags.RemovalCounts | NinjaDAM.Services/Services/VisualTagService.cs:237-278 | the deleted links and the kept links together make up the table, and the kept links hold none of the requested pairs, so a second removal deletes nothing |
| VisualTags.RemovalSparesOtherTags | NinjaDAM.Services/Services/VisualTagService.cs:237-258 | a tag that was not requested keeps its number of links |
| VisualTags.TagStore.CreateTag | NinjaDAM.Services/Services/VisualTagService.cs:63-89 | refused with the duplicate message when another tag of the user has the name key; otherwise the tag is appended with the trimmed name, owner, company, times and no assets; links and assets unchanged |
| VisualTags.TagStore.UpdateTag | NinjaDAM.Services/Services/VisualTagService.cs:91-123 | null for a tag that is not the user's; the duplicate message when another tag of the user has the new name key; otherwise only that tag's trimmed name, colour and update time change |
| VisualTags.TagStore.DeleteTag | NinjaDAM.Services/Services/VisualTagService.cs:125-154 | false and nothing changes for a tag that is not the user's; otherwise the tag and every link to it are removed, and no such tag or link remains |
| VisualTags.TagStore.AssignTags | NinjaDAM.Services/Services/VisualTagService.cs:156-232 | refused when any requested asset or tag is not the user's; otherwise the new pairs are appended, their number returned, and the requested tags recounted only when something was added |
| VisualTags.TagStore.RemoveTags | NinjaDAM.Services/Services/VisualTagService.cs:234-279 | returns the number of requested links on the user's assets; when none, nothing changes; otherwise those links are removed and the user's affected tags recounted |
| Collections.NameFree | NinjaDAM.Services/Services/CollectionService.cs:74-80 | the duplicate-name lookup finds nothing exactly when no collection of the user (other than the one being edited) has the same trimmed, lower-cased name |
| Collections.CountAfterAppend | NinjaDAM.Services/Services/CollectionService.cs:228-230 | the link count of a collection over appended links is the sum of the counts of both parts |
| Collections.CountAfterRemoval | NinjaDAM.Services/Services/CollectionService.cs:264-270 | removing one link lowers the count of its own collection by one and leaves every other count |
| Collections.CountAfterPurge | NinjaDAM.Services/Services/CollectionService.cs:166-173 | deleting one collection's links leaves every other collection's count |
| Collections.UserCollections | NinjaDAM.Services/Services/CollectionService.cs:33-42 | the result is a permutation of the user's collections, holds exactly those, and is ordered most recently updated first |
| Collections.LinkedAssets | NinjaDAM.Services/Services/CollectionService.cs:61-64 | at most one asset per link, and each one is a stored asset that some link points to |
| Collections.LinkedAssetsCover | NinjaDAM.Services/Services/CollectionService.cs:61-64 | every stored asset a link points to is among the joined assets |
| Collections.CollectionById | NinjaDAM.Services/Services/CollectionService.cs:44-69 | a view is returned exactly when a collection with that id belongs to the user; it holds that collection and only assets linked to it |
| Collections.CollectionByIdShowsLinks | NinjaDAM.Services/Services/CollectionService.cs:44-69 | every asset linked to the collection appears in its view |
| Collections.ExistingIds | NinjaDAM.Services/Services/CollectionService.cs:205-209 | exactly the asset ids linked to the collection |
| Collections.UnstampedMembers | NinjaDAM.Services/Services/CollectionService.cs:205-209 | a pair is in the link table, read without times, exactly when some link joins that collection and asset |
| Collections.NewLinks | NinjaDAM.Services/Services/CollectionService.cs:214-225 | one link per new id, in order, for this collection and stamped with the call's time |
| Collections.AddedAllLinked | NinjaDAM.Services/Services/CollectionService.cs:204-225 | after adding, every requested asset is in the collection, and adding the same assets again adds nothing |
| Collections.AddedLinksUnique | NinjaDAM.Services/Services/CollectionService.cs:204-225 | adding never links the same asset to the same collection twice |
| Collections.AddedCount | NinjaDAM.Services/Services/CollectionService.cs:228-230 | the intended count after adding: the links before plus the new ones |
| Collections.AddedCountAsWrittenIsStale | NinjaDAM.Services/Services/CollectionService.cs:214-234 | adding one asset to an empty collection, the count read before the save is 0 while the collection then holds one link |
| Collections.AppendLinks | NinjaDAM.Services/Services/CollectionService.cs:214-225 | the loop appends exactly the new links for the new ids |
| Collections.AddedCollectionValid | NinjaDAM.Services/Services/CollectionService.cs:71-97 | a new collection with a fresh id, a free name and none of its own links keeps ids unique, names distinct per user and every cached count equal to the number of links |
| Collections.LinkedValid | NinjaDAM.Services/Services/CollectionService.cs:180-240 | adding links and writing the intended count to the collection keep the state valid |
| Collections.UnlinkedValid | NinjaDAM.Services/Services/CollectionService.cs:242-280 | removing one link of the collection and recounting lowers its count by one, keeps the state valid, and leaves no link with that pair |
| Collections.RemovedLinkGone | NinjaDAM.Services/Services/CollectionService.cs:254-265 | removing a link keeps pairs unique and leaves no link with the removed pair |
| Collections.CoverCheck | NinjaDAM.Services/Services/CollectionService.cs:124-141 | no cover passes; a cover passes only when the user owns an asset with that id whose FileType is "image" in any case; a cover the user does not own gets the not-found message |
| Collections.CollectionStore.CreateCollection | NinjaDAM.Services/Services/CollectionService.cs:71-97 | refused with the duplicate message when another collection of the user has the name key; otherwise the collection is appended with the name as given, no assets, no cover and the call's times |
| Collections.CollectionStore.UpdateCollection | NinjaDAM.Services/Services/CollectionService.cs:99-151 | null when the collection is not the user's; the duplicate message on a taken name; the cover message when the cover fails its check; otherwise name, description, the cover when one is given and the update time are written |
| Collections.CollectionStore.DeleteCollection | NinjaDAM.Services/Services/CollectionService.cs:153-178 | false and nothing changes for a collection that is not the user's; otherwise the collection and all its links are removed |
| Collections.CollectionStore.AddAssets | NinjaDAM.Services/Services/CollectionService.cs:180-240 | -1 and nothing changes unless the collection and every requested asset are the user's; otherwise links the requested assets not already in it, returns how many, and writes the count after the insertion |
| Collections.CollectionStore.RemoveAsset | NinjaDAM.Services/Services/CollectionService.cs:242-280 | false and nothing changes unless the collection is the user's and holds the asset; otherwise that link is removed and the count drops by one |
| Carts.AssetOf | NinjaDAM.Services/Services/CartService.cs:31 | the item's asset is a stored asset with that id, and none is found only when no asset has the id |
| Carts.NewestFirstOrders | NinjaDAM.Services/Services/CartService.cs:40 | newest-first by AddedAt is a total preorder |
| Carts.CartRows | NinjaDAM.Services/Services/CartService.cs:30-44 | every shown item is a stored item of the user in the requested company (or none) whose asset exists and is not deleted |
| Carts.CartRowsSorted | NinjaDAM.Services/Services/CartService.cs:39-41 | the shown items are ordered newest first |
| Carts.CartRowsExact | NinjaDAM.Services/Services/CartService.cs:30-44 | the shown items are a permutation of exactly the scoped items with a live asset |
| Carts.Line | NinjaDAM.Services/Services/CartService.cs:45-55 | for an item with a live asset the line is the item's id, asset id and time with that asset's file columns |
| Carts.Cart | NinjaDAM.Services/Services/CartService.cs:26-69 | one line per shown item, in order, each built from its item, and TotalItems equals the number of lines |
| Carts.CartLines | NinjaDAM.Services/Services/CartService.cs:43-61 | each line comes from an item of the user in the company and is built from its live asset |
| Carts.CartTotal | NinjaDAM.Services/Services/CartService.cs:58-62 | TotalItems is the number of scoped items with a live asset |
| Carts.CartWithinCount | NinjaDAM.Services/Services/CartService.cs:249-257 | the count, which ignores the company, is never below the cart's TotalItems |
| Carts.CartMatchesCount | NinjaDAM.Services/Services/CartService.cs:249-257 | when all the user's items are in the requested company, the count and TotalItems agree |
| Carts.AddOne | NinjaDAM.Services/Services/CartService.cs:71-141 | refused with the access message exactly when no live asset with that id is in the caller's company; on success the line is for that asset and an item of the user for it exists; the table gains at most the one new item, and only when the user held no item for the asset |
| Carts.AddOneValid | NinjaDAM.Services/Services/CartService.cs:89-120 | adding keeps item ids unique and at most one item per user and asset |
| Carts.AddOneIdempotent | NinjaDAM.Services/Services/CartService.cs:89-107 | adding the same asset again changes nothing and returns the same line |
| Carts.AddAll | NinjaDAM.Services/Services/CartService.cs:143-162 | at most one line per requested id; the table only grows, and only with items carrying the supplied fresh ids |
| Carts.AddAllStep | NinjaDAM.Services/Services/CartService.cs:147-159 | the loop over one more id is AddToCartAsync on the table the earlier ids left, keeping its line only on success |
| Carts.AddAllOutcome | NinjaDAM.Services/Services/CartService.cs:143-162 | one line per accessible requested id, and the user then holds every accessible requested asset |
| Carts.AddAllValid | NinjaDAM.Services/Services/CartService.cs:143-162 | with distinct unused fresh ids the table stays valid |
| Carts.UnselectedKeepsOthers | NinjaDAM.Services/Services/CartService.cs:189-210 | a bulk removal leaves every other user's items and keeps none of the removed ones |
| Carts.FilteredValid | NinjaDAM.Services/Services/CartService.cs:189-240 | deleting any set of items keeps the table valid |
| Carts.RemovedValid | NinjaDAM.Services/Services/CartService.cs:164-180 | deleting one item keeps the table valid and leaves no item with its id |
| Carts.CartStore.AddToCart | NinjaDAM.Services/Services/CartService.cs:71-141 | the line and the new table are those AddOne gives |
| Carts.CartStore.AddMultiple | NinjaDAM.Services/Services/CartService.cs:143-162 | the lines and the new table are those AddAll gives |
| Carts.CartStore.RemoveFromCart | NinjaDAM.Services/Services/CartService.cs:164-187 | false and nothing changes unless the user has an item with the id; otherwise that item is deleted and no item with the id remains |
| Carts.CartStore.RemoveMultiple | NinjaDAM.Services/Services/CartService.cs:189-217 | true exactly when the user has an item among the ids; then exactly those items are deleted, otherwise nothing changes |
| Carts.CartStore.ClearCart | NinjaDAM.Services/Services/CartService.cs:219-247 | true exactly when the user has any item; then all of them are deleted and no item of the user remains |
| MetadataFields.NewField | NinjaDAM.Services/Services/MetadataFieldService.cs:64-79 | the new row has the trimmed field name, trimmed label and description, the owner, company and fresh id, and the call's time as both timestamps |
| MetadataFields.NameFree | NinjaDAM.Services/Services/MetadataFieldService.cs:55-62 | the duplicate-name lookup finds nothing exactly when no field of the user has the same trimmed, lower-cased name |
| MetadataFields.TrimmedKey | NinjaDAM.Services/Services/MetadataFieldService.cs:57 | trimming a name does not change its key |
| MetadataFields.AddedFieldValid | NinjaDAM.Services/Services/MetadataFieldService.cs:53-87 | adding a field with a fresh id and a free name keeps ids unique and each user's name keys distinct |
| MetadataFields.ReplacedFieldValid | NinjaDAM.Services/Services/MetadataFieldService.cs:89-116 | an update that keeps the id, the owner and the name keeps the table valid |
| MetadataFields.RemovedFieldValid | NinjaDAM.Services/Services/MetadataFieldService.cs:118-136 | deleting a field keeps the table valid and leaves no field with its id |
| MetadataFields.ByLabelOrders | NinjaDAM.Services/Services/MetadataFieldService.cs:32 | ordering by display label is a total preorder when the label comparison is |
| MetadataFields.UserFields | NinjaDAM.Services/Services/MetadataFieldService.cs:27-36 | the result is a permutation of the user's fields, holds exactly those, and is sorted by display label |
| MetadataFields.FieldById | NinjaDAM.Services/Services/MetadataFieldService.cs:38-51 | a field is returned exactly when one with that id belongs to the user, and it is that field |
| MetadataFields.FieldByIdUnique | NinjaDAM.Services/Services/MetadataFieldService.cs:38-51 | in a valid table a user's field is found again by its own id |
| MetadataFields.CreatedNameTaken | NinjaDAM.Services/Services/MetadataFieldService.cs:55-62 | once a field is created, any name with the same key is refused for that user |
| MetadataFields.FieldStore.CreateField | NinjaDAM.Services/Services/MetadataFieldService.cs:53-87 | refused with the duplicate message when the user has a field with the name key; otherwise the new row is appended |
| MetadataFields.FieldStore.UpdateField | NinjaDAM.Services/Services/MetadataFieldService.cs:89-116 | null and nothing changes for a field that is not the user's; otherwise the settings are written over that row only, keeping its name, owner, company, id and creation time |
| MetadataFields.FieldStore.DeleteField | NinjaDAM.Services/Services/MetadataFieldService.cs:118-136 | false and nothing changes for a field that is not the user's; otherwise the row is deleted and cannot be found again |
| Vocabulary.ValueFree | NinjaDAM.Services/Services/ControlledVocabularyValueService.cs:83-92 | the duplicate-value lookup finds nothing exactly when no value of the user for that field (other than the one being edited) has the same trimmed, lower-cased text |
| Vocabulary.AddedValueValid | NinjaDAM.Services/Services/ControlledVocabularyValueService.cs:67-111 | adding a value with a fresh id and a free key keeps ids unique and keys distinct per field and user |
| Vocabulary.ReplacedValueValid | NinjaDAM.Services/Services/ControlledVocabularyValueService.cs:113-147 | an update to a key free among the field's other values keeps the table valid |
| Vocabulary.RemovedValueValid | NinjaDAM.Services/Services/ControlledVocabularyValueService.cs:149-167 | deleting a value keeps the table valid and leaves no value with its id |
| Vocabulary.ByOrderThenValueOrders | NinjaDAM.Services/Services/ControlledVocabularyValueService.cs:45-46 | ordering by display order then value is a total preorder when the value comparison is |
| Vocabulary.SortedByOrder | NinjaDAM.Services/Services/ControlledVocabularyValueService.cs:45-46 | in a sorted listing display orders never decrease, and within one display order the values follow the string order |
| Vocabulary.FieldValues | NinjaDAM.Services/Services/ControlledVocabularyValueService.cs:30-50 | nothing when the field is not the user's; otherwise a permutation of exactly the user's values of that field, sorted by display order then value |
| Vocabulary.ValueById | NinjaDAM.Services/Services/ControlledVocabularyValueService.cs:52-65 | a value is returned exactly when one with that id belongs to the user, and it is that value |
| Vocabulary.CreateGuard | NinjaDAM.Services/Services/ControlledVocabularyValueService.cs:69-92 | refused as "field not found" exactly when the field is not the user's; as "no vocabulary" exactly when it is but neither has a controlled vocabulary nor is a Dropdown; accepted exactly when the field takes values and no value of it has the key |
| Vocabulary.CreatedValueTaken | NinjaDAM.Services/Services/ControlledVocabularyValueService.cs:83-92 | once a value is stored, the same text in any spelling with the same key is refused for that field |
| Vocabulary.VocabularyStore.CreateValue | NinjaDAM.Services/Services/ControlledVocabularyValueService.cs:67-111 | refused with the first failing guard's message; otherwise the value is appended, trimmed, with its display order and times |
| Vocabulary.VocabularyStore.UpdateValue | NinjaDAM.Services/Services/ControlledVocabularyValueService.cs:113-147 | null for a value that is not the user's; the duplicate message when another value of its field has the new key; otherwise only the trimmed text, display order and update time change |
| Vocabulary.VocabularyStore.DeleteValue | NinjaDAM.Services/Services/ControlledVocabularyValueService.cs:149-167 | false and nothing changes for a value that is not the user's; otherwise the row is deleted |
| UserManagement.ViewOf | NinjaDAM.Services/Services/UserManagementService.cs:93-103 | the response carries the user's id, address and first role (or "User"); it has a group exactly when the user has a UserGroup row, and that group is one of the user's rows |
| UserManagement.ByEmailOrders | NinjaDAM.Services/Services/UserManagementService.cs:108 | ordering by e-mail address is a total preorder when the string order is |
| UserManagement.SortedViews | NinjaDAM.Services/Services/UserManagementService.cs:90-108 | the ordered responses are the responses of exactly the users given |
| UserManagement.MemberIds | NinjaDAM.Services/Services/UserManagementService.cs:74-77 | exactly the user ids that have a UserGroup row for the group |
| UserManagement.SuperAdminListsAll | NinjaDAM.Services/Services/UserManagementService.cs:56-58 | a SuperAdmin requester lists every user |
| UserManagement.ListedSameCompany | NinjaDAM.Services/Services/UserManagementService.cs:43-88 | a listed user is a stored user, the requester exists, and unless the requester is a SuperAdmin both belong to the same non-null company |
| UserManagement.ListedByGroup | NinjaDAM.Services/Services/UserManagementService.cs:69-85 | a requester in a group lists exactly the users of their company who are members of that group (the requester's first UserGroup row); one in no group lists exactly their company |
| UserManagement.UserFor | NinjaDAM.Services/Services/UserManagementService.cs:111-149 | a response exists exactly when both the requester and the user exist and the requester is a SuperAdmin or shares the user's CompanyId; it is that user's response |
| UserManagement.ListedReadable | NinjaDAM.Services/Services/UserManagementService.cs:43-149 | every user the list shows can be read on its own by the same requester |
| UserManagement.ManagedReadable | NinjaDAM.Services/Services/UserManagementService.cs:255-283 | whom a requester may update, delete or change the status of, that requester may also read |
| UserManagement.CreatedUser | NinjaDAM.Services/Services/UserManagementService.cs:179-204 | the new user has the address as user name and e-mail, trimmed first name, trimmed last name or empty, the requester's company, the given role alone, and is approved, awaiting its first login and confirmed, active as requested |
| UserManagement.CreatedReadable | NinjaDAM.Services/Services/UserManagementService.cs:151-252 | a user just created by a requester is read back by that requester as its own response |
| UserManagement.CreatedMustReset | NinjaDAM.Services/Services/UserManagementService.cs:179-195 | signing in as the created user with the temporary password never yields a session; an active account is asked to reset its password, an inactive one is refused as inactive |
| UserManagement.Edited | NinjaDAM.Services/Services/UserManagementService.cs:286-299 | id, address, company and roles are kept; a first or last name that is given (not blank) is stored trimmed, otherwise kept; IsActive is stored when supplied |
| UserManagement.EditedIdempotent | NinjaDAM.Services/Services/UserManagementService.cs:286-299 | writing the same request twice changes nothing more |
| UserManagement.EditedNothing | NinjaDAM.Services/Services/UserManagementService.cs:286-299 | a request with nothing set leaves the user as it is |
| UserManagement.EditedNamesNotBlank | NinjaDAM.Services/Services/UserManagementService.cs:286-289 | a given first name is never stored blank |
| UserManagement.GroupRowsAfterReplace | NinjaDAM.Services/Services/UserManagementService.cs:324-340 | after a group is given the user belongs to that group alone and it is their first row; every other user's rows are unchanged |
| UserManagement.UpdatedReadable | NinjaDAM.Services/Services/UserManagementService.cs:255-345 | the user just updated keeps ids unique and is read back by the requester |
| UserManagement.CompanyAdmins | NinjaDAM.Services/Services/UserManagementService.cs:388-393 | exactly the stored admins of the user's company, or every admin when the user has no company |
| UserManagement.DeleteOutcome | NinjaDAM.Services/Services/UserManagementService.cs:348-414 | true only when the requester may manage the user, it is not the requester, and it is not the last admin counted; deleting one's own account is never true |
| UserManagement.WithoutKeeps | NinjaDAM.Services/Services/UserManagementService.cs:404 | every user with another id survives a deletion |
| UserManagement.DeleteKeepsAnAdmin | NinjaDAM.Services/Services/UserManagementService.cs:385-402 | a successful deletion of an admin leaves another admin among those the check counted |
| UserManagement.StatusOutcome | NinjaDAM.Services/Services/UserManagementService.cs:416-465 | true only when the requester may manage the user; deactivating one's own account is never true |
| UserManagement.AvailableRoles | NinjaDAM.Services/Services/UserManagementService.cs:467-475 | a permutation of exactly the role names other than SuperAdmin, sorted |
| UserManagement.UserDirectory.GetAllUsers | NinjaDAM.Services/Services/UserManagementService.cs:43-109 | the loop's result is a permutation of the responses of the listed users, holds exactly those, and is sorted by e-mail address |
| UserManagement.UserDirectory.AddCreated | NinjaDAM.Services/Services/UserManagementService.cs:195-252 | when Identity reports errors nothing changes and the errors are joined into the exception; otherwise the user is appended with a UserGroup row for a given group, the role's default permissions are granted, and the new user's response is returned |
| UserManagement.UserDirectory.CreateUser | NinjaDAM.Services/Services/UserManagementService.cs:151-253 | the first failing check (requester unknown, no company, address taken, invalid role) throws and changes nothing; otherwise a temporary password is drawn and the user created as AddCreated states |
| UserManagement.UserDirectory.UpdateUser | NinjaDAM.Services/Services/UserManagementService.cs:255-346 | null and nothing changes unless the requester may manage the user; Identity errors throw and change nothing; an invalid given role throws after the names and status are stored; otherwise the role replaces the old ones, a given group replaces the user's rows, and the updated response is returned |
| UserManagement.UserDirectory.DeleteUser | NinjaDAM.Services/Services/UserManagementService.cs:348-414 | the result is DeleteOutcome; on true the user is removed, otherwise the table is unchanged; UserGroup rows are untouched |
| UserManagement.UserDirectory.UpdateUserStatus | NinjaDAM.Services/Services/UserManagementService.cs:416-465 | the result is StatusOutcome; on true only the user's IsActive changes, otherwise nothing |
| Login.CompanyById | NinjaDAM.Services/Services/LoginService.cs:89 | the company found has that key, and none is found only when no company has it |
| Login.CompanyNameOf | NinjaDAM.Services/Services/LoginService.cs:86-91 | a company name is reported exactly when the user's CompanyId is set, is not Guid.Empty and names a stored company, and it is that company's name |
| Login.FirstMembership | NinjaDAM.Services/Services/LoginService.cs:128 | the row found is one of the user's UserGroup rows, and none is found only when the user has none |
| Login.GroupByKey | NinjaDAM.Services/Services/LoginService.cs:132 | the group found has that key, and none is found only when no group has it |
| Login.GroupOf | NinjaDAM.Services/Services/LoginService.cs:128-134 | a group id is reported exactly when the user has a UserGroup row, and it is one of the user's; a group name only with an id, and it is the name of the group with that id |
| Login.FullName | NinjaDAM.Services/Services/LoginService.cs:99 | the Name claim is the first name, one space, then the last name |
| Login.SignIn | NinjaDAM.Services/Services/LoginService.cs:46-51 | null exactly for a missing request or a blank address or password |
| Login.SignInAdmitsExactly | NinjaDAM.Services/Services/LoginService.cs:54-140 | a user is signed in exactly when the first account whose address matches ignoring case is approved, active, not on its first login and verifies the password; a reset is demanded exactly when all holds but the first-login flag is set; never both |
| Login.SignedInUser | NinjaDAM.Services/Services/LoginService.cs:81-140 | a signed-in response describes a stored account matching the address ignoring case and admitting the password: its id, address and first role, its company name, and claims for subject, e-mail, the token id, the full name, role, company name (or empty) and company id (or empty) |
| Login.LockedAccountIgnoresPassword | NinjaDAM.Services/Services/LoginService.cs:58-64 | an account that is not approved or not active gets the same refusal whatever password is offered |
| Login.SignInIgnoresEmailCase | NinjaDAM.Services/Services/LoginService.cs:54 | two addresses that differ only in letter case get the same answer |
| Register.ValidateRole | NinjaDAM.Services/Services/RegisterService.cs:135-141 | the role chosen is "User" or the role as given |
| Register.ValidateRoleKnown | NinjaDAM.Services/Services/RegisterService.cs:135-141 | the role chosen is "User" or a non-blank role other than the placeholder that the store knows ignoring case; a usable known role is kept as spelled; a role the store does not know becomes "User" |
| Register.RoleNamed | NinjaDAM.Services/Services/RegisterService.cs:95 | the role row found is a stored role equal to the name ignoring case, and none is found exactly when no stored role matches |
| Register.KeyIndex | NinjaDAM.Services/Services/RegisterService.cs:53-55 | the index is -1 or a company whose key is the one looked up, and -1 exactly when no company has that key |
| Register.AddedKeyFound | NinjaDAM.Services/Services/RegisterService.cs:53-64 | a company added under a key no other company has keeps the keys distinct and is found under that key |
| Register.CompanyIndexAsWritten | NinjaDAM.Services/Services/RegisterService.cs:51-55 | the lookup as written finds a company whose lower-cased, untrimmed name equals the trimmed, lower-cased request, and finds none exactly when no company has such a name |
| Register.CompanyIndex | NinjaDAM.Services/Services/RegisterService.cs:51-55 | the corrected lookup finds a company whose trimmed, lower-cased name equals the request's, and none exactly when no company has that key |
| Register.PaddedNameNotFound | NinjaDAM.Services/Services/RegisterService.cs:51-55 | a company stored under a name with leading white space is not found again under that same name as written, while the corrected lookup finds it |
| Register.PaddedAcmeNotFound | NinjaDAM.Services/Services/RegisterService.cs:51-55 | the company " Acme" is not found when " Acme" registers again |
| Register.CompaniesAfter | NinjaDAM.Services/Services/RegisterService.cs:49-66 | the lookup keeps every stored company in place and adds at most one |
| Register.AddedCompanyIds | NinjaDAM.Services/Services/RegisterService.cs:57-64 | a company added with a fresh id keeps company ids unique |
| Register.CompaniesAfterValid | NinjaDAM.Services/Services/RegisterService.cs:49-66 | after the lookup company ids stay unique and name keys stay distinct |
| Register.CompaniesAfterFound | NinjaDAM.Services/Services/RegisterService.cs:53-66 | a company found under the name's key is joined and nothing is added; otherwise the company mapped from the request is added and joined |
| Register.CompaniesAfterJoin | NinjaDAM.Services/Services/RegisterService.cs:49-73 | a company is joined exactly when a non-blank company name is given, and its name has the request's key |
| Register.SameKeySameCompany | NinjaDAM.Services/Services/RegisterService.cs:49-73 | a later registration under any name with the same key creates no company and joins the same one |
| Register.RegisterStore.AddAccount | NinjaDAM.Services/Services/RegisterService.cs:84-129 | Identity's errors are joined into the refusal and nothing is added; a validated role unknown to the role store throws after the user is added; otherwise the user is added with that role, the role's default permissions are granted and the success message names the role |
| Register.RegisterStore.Register | NinjaDAM.Services/Services/RegisterService.cs:36-130 | a null request and a taken address are refused and change nothing; otherwise the company lookup runs, a temporary password is drawn, and the account step follows as AddAccount states |
| Register.RegisteredMustReset | NinjaDAM.Services/Services/RegisterService.cs:76-86 | a freshly registered account signing in with its temporary password gets no session and is asked to reset its password |
| TempPasswords.EffectiveLength | NinjaDAM.Services/Services/RegisterService.cs:146 | the length used is at least 4, and a requested length of at least 4 is used as given |
| TempPasswords.Drawn | NinjaDAM.Services/Services/RegisterService.cs:155-172 | before the shuffle the password has exactly the effective length |
| TempPasswords.GenerateTempPassword | NinjaDAM.Services/Services/RegisterService.cs:144-176 | the loop and the copies produce the drawn characters shuffled by the drawn keys |
| TempPasswords.AllCharsLayout | NinjaDAM.Services/Services/RegisterService.cs:148-162 | the combined alphabet is the lower-case letters, upper-case letters, digits and specials laid end to end |
| TempPasswords.DrawnFront | NinjaDAM.Services/Services/RegisterService.cs:155-172 | the first four characters before the shuffle are a lower-case letter, an upper-case letter, a digit and a special, in that order |
| TempPasswords.DrawnCharAt | NinjaDAM.Services/Services/RegisterService.cs:161-172 | every character before the shuffle is in the combined alphabet |
| TempPasswords.DrawnChars | NinjaDAM.Services/Services/RegisterService.cs:161-172 | the drawn characters all come from the combined alphabet |
| TempPasswords.PasswordStrength | NinjaDAM.Services/Services/RegisterService.cs:144-176 | the password has the effective length, holds at least one character of each of the four classes and uses no other character |
| Shuffles.Pairs | NinjaDAM.Services/Services/RegisterService.cs:175 | each character is paired with its own random key, in order |
| Shuffles.ByKeyOrders | NinjaDAM.Services/Services/RegisterService.cs:175 | ordering pairs by key is a total preorder |
| Shuffles.CharsAppend | NinjaDAM.Services/Services/RegisterService.cs:175 | projecting a concatenation projects each part |
| Shuffles.RemoveAt | NinjaDAM.Services/Services/RegisterService.cs:175 | taking one pair out removes exactly that pair, and its character from the projection |
| Shuffles.CharsPermuted | NinjaDAM.Services/Services/RegisterService.cs:175 | projecting two permutations of each other gives permutations of each other |
| Shuffles.CharsOfPairs | NinjaDAM.Services/Services/RegisterService.cs:175 | projecting the pairs gives back the characters |
| Shuffles.Shuffle | NinjaDAM.Services/Services/RegisterService.cs:175 | the shuffle is a permutation of its characters |
| ResetPassword.ChangeAcceptedExactly | NinjaDAM.Services/Services/ResetPasswordService.cs:46-104 | a change goes through exactly when an account has the address, none of its five newest history hashes verifies the new password with Success (SuccessRehashNeeded does not count), the current password verifies with any answer but Failed, and the validators report nothing |
| ResetPassword.InitialChangeAcceptedExactly | NinjaDAM.Services/Services/ResetPasswordService.cs:107-147 | an initial change goes through exactly when the address is not blank, the account found ignoring case is approved and verifies the current password, and the new password has at least eight UTF-16 code units and is not blank |
| ResetPassword.InitialChangeUnlocksSignIn | NinjaDAM.Services/Services/ResetPasswordService.cs:140-141 | after an initial change an active account signs in with the new password, without another reset demanded |
| ResetPassword.ChangeSignsIn | NinjaDAM.Services/Services/ResetPasswordService.cs:70-86 | after a change the account signs in with the new password exactly when it is approved, active and past its first login |
| ResetPassword.ChangeThenReuseRefused | NinjaDAM.Services/Services/ResetPasswordService.cs:54-86 | once a change is recorded later than the user's other entries, offering a password the new hash verifies with Success is refused as a reuse |
| ResetPassword.PasswordStore.RecordPassword | NinjaDAM.Services/Services/ResetPasswordService.cs:78-101 | the new hash is stored on that user only, and the history becomes the recorded table: the new entry added and the user's entries beyond the five newest deleted |
| ResetPassword.PasswordStore.ChangePassword | NinjaDAM.Services/Services/ResetPasswordService.cs:46-104 | on a refusal (account unknown; a history hash answers Success for the new password; the current password answers Failed; validator errors, in that order) its message is returned and nothing changes; otherwise the success message, the new hash on the user and the new entry recorded |
| ResetPassword.PasswordStore.ChangeInitialPassword | NinjaDAM.Services/Services/ResetPasswordService.cs:107-147 | on a refusal its message is returned and nothing changes; otherwise the new hash replaces the old and the first-login flag is cleared; the history is never touched |
| Text.Utf16Length | NinjaDAM.Services/Services/ResetPasswordService.cs:134 | `string.Length` counts UTF-16 code units: between the number of characters and twice it, and equal to it when every character is in the Basic Multilingual Plane |
| PasswordHistory.NewestFirstOrders | NinjaDAM.Services/Services/ResetPasswordService.cs:56 | newest-first by ChangedOn is a total preorder |
| PasswordHistory.Recent | NinjaDAM.Services/Services/ResetPasswordService.cs:54-56 | a permutation of exactly the user's entries, newest first |
| PasswordHistory.Last5 | NinjaDAM.Services/Services/ResetPasswordService.cs:57 | the reuse check looks at no more than five entries |
| PasswordHistory.IsReused | NinjaDAM.Services/Services/ResetPasswordService.cs:60-67 | the loop reports a reuse exactly when one of the entries verifies the new password with Success; SuccessRehashNeeded is not a reuse |
| PasswordHistory.RehashNeededNotReused | NinjaDAM.Services/Services/ResetPasswordService.cs:62-63 | a history hash that answers SuccessRehashNeeded lets the password through sign-in, yet does not make it a reuse |
| PasswordHistory.TrimHistory | NinjaDAM.Services/Services/ResetPasswordService.cs:89-101 | the deletion loop leaves the trimmed table |
| PasswordHistory.FilterFront | NinjaDAM.Services/Services/ResetPasswordService.cs:89-93 | a filter that drops everything from position five on keeps at most five |
| PasswordHistory.StaleDropped | NinjaDAM.Services/Services/ResetPasswordService.cs:89-98 | every entry of the user from position five on is deleted |
| PasswordHistory.TrimmedBound | NinjaDAM.Services/Services/ResetPasswordService.cs:88-101 | after the clean-up the user has at most five entries |
| PasswordHistory.SameKeySameEntry | NinjaDAM.Services/Services/ResetPasswordService.cs:78-86 | two rows with the same key are the same row |
| PasswordHistory.TrimmedOthers | NinjaDAM.Services/Services/ResetPasswordService.cs:89-101 | the clean-up leaves every other user's entries as they were |
| PasswordHistory.StaleEntry | NinjaDAM.Services/Services/ResetPasswordService.cs:89-93 | every entry marked for deletion is one of the user's rows |
| PasswordHistory.NewestFirstPlace | NinjaDAM.Services/Services/ResetPasswordService.cs:54-56 | the user's strictly newest entry comes first |
| PasswordHistory.FrontNotStale | NinjaDAM.Services/Services/ResetPasswordService.cs:89-93 | the entry in front is never deleted |
| PasswordHistory.NewestKept | NinjaDAM.Services/Services/ResetPasswordService.cs:54-101 | the user's strictly newest entry stays in the table and is among those the reuse check looks at |
| PasswordHistory.NoDuplicatesOf | NinjaDAM.Services/Services/ResetPasswordService.cs:54-56 | under unique keys the user's entries, newest first, hold no row twice |
| PasswordHistory.AppendedKeys | NinjaDAM.Services/Services/ResetPasswordService.cs:78-86 | an entry added under a fresh key keeps the keys unique |
| PasswordHistory.RecordedValid | NinjaDAM.Services/Services/ResetPasswordService.cs:78-101 | recording a password under a fresh key keeps the keys unique |
| PasswordHistory.RecordedKeepsNewest | NinjaDAM.Services/Services/ResetPasswordService.cs:78-101 | a password recorded later than the user's other entries stays, is among the five the reuse check looks at, and leaves the user at most five entries |
| PasswordHistory.RecordedIsReused | NinjaDAM.Services/Services/ResetPasswordService.cs:54-86 | the password just recorded, offered again and answering Success against its new hash, is refused as a reuse at the next change |
| EmailOtp.Substituted | NinjaDAM.Services/Services/EmailService.cs:59-65 | replacing fails exactly when some placeholder key is empty, as string.Replace then throws |
| EmailOtp.ReplacePlaceholders | NinjaDAM.Services/Services/EmailService.cs:59-65 | the loop yields the template with every placeholder replaced in turn |
| EmailOtp.NoPlaceholdersUnchanged | NinjaDAM.Services/Services/EmailService.cs:59-65 | a template holding none of the (non-empty) placeholders comes back unchanged |
| EmailOtp.NullValueIsEmpty | NinjaDAM.Services/Services/EmailService.cs:62 | a null value is replaced exactly like an empty one |
| EmailOtp.Issued | NinjaDAM.Services/Services/EmailService.cs:110-120 | the new record has the normalised address, the code's decimal text, an expiry five minutes ahead and is unused |
| EmailOtp.MatchIndex | NinjaDAM.Services/Services/EmailService.cs:155-163 | the record picked matches the address and code, has not expired and is unused, and none is picked exactly when no record qualifies |
| EmailOtp.SixDigitCode | NinjaDAM.Services/Services/EmailService.cs:111 | every code Random can draw is written as exactly six decimal digits |
| EmailOtp.ReissuedOnePerEmail | NinjaDAM.Services/Services/EmailService.cs:100-124 | issuing a code keeps at most one record per address |
| EmailOtp.FilterOnePerEmail | NinjaDAM.Services/Services/EmailService.cs:103-105 | deleting records keeps at most one record per address |
| EmailOtp.ReissuedVerifies | NinjaDAM.Services/Services/EmailService.cs:95-170 | right after issuing, a code verifies exactly when it is the issued one and the five minutes have not passed, and what verifies is the new record |
| EmailOtp.SingleUse | NinjaDAM.Services/Services/EmailService.cs:147-170 | a code that verified is refused for the same address at any later time |
| EmailOtp.MarkedUsedOnePerEmail | NinjaDAM.Services/Services/EmailService.cs:165-168 | marking a record used keeps one record per address |
| EmailOtp.OtpStore.SendOtp | NinjaDAM.Services/Services/EmailService.cs:95-142 | a blank address throws and nothing changes; otherwise the address's older records are deleted and the fresh record added |
| EmailOtp.OtpStore.VerifyOtp | NinjaDAM.Services/Services/EmailService.cs:147-171 | a blank address or code is refused with nothing changed; otherwise, when a usable record exists it is marked used and the normalised address returned, and when none does nothing changes |
| ForgotPassword.ResetAcceptedExactly | NinjaDAM.Services/Services/ForgotPasswordService.cs:60-113 | a reset goes through exactly when address, code and new password are all present, a usable code matches, an account has the address and none of its five newest history hashes verifies the new password with Success (ForgotPasswordService.cs:100-101; SuccessRehashNeeded does not count) |
| ForgotPassword.ResetConsumesCode | NinjaDAM.Services/Services/ForgotPasswordService.cs:73-80 | a code that reset a password is refused as invalid or expired for any later reset, whatever the new password |
| ForgotPassword.ForgotStore.SendForgotPasswordOtp | NinjaDAM.Services/Services/ForgotPasswordService.cs:32-56 | an unknown address is answered without a code; a blank one throws; otherwise a fresh code replaces the address's earlier ones and the user's names are returned |
| ForgotPassword.ForgotStore.VerifyOtpAndResetPassword | NinjaDAM.Services/Services/ForgotPasswordService.cs:60-146 | it succeeds exactly when no refusal applies (missing input, no usable code, unknown account, a history hash answering Success for the new password); a refusal leaves accounts and history alone, a success sets the hash and records it in the history; the code is used up once it verifies, even if the reset is then refused |
| ForgotPassword.ResetSignsIn | NinjaDAM.Services/Services/ForgotPasswordService.cs:110-113 | after a reset, the normalised address with the new password signs in exactly when the account is approved, active and past its first login |
| PathMapping.RelativePath | NinjaDAM.Services/Mapping/MappingProfile.cs:130-152 | null and the empty path are returned as they are; any other path maps to a path |
| PathMapping.ForwardSlashes | NinjaDAM.Services/Mapping/MappingProfile.cs:135 | the normalised path holds no backslash |
| PathMapping.RelativePathNoBackslash | NinjaDAM.Services/Mapping/MappingProfile.cs:135-151 | no backslash survives in any mapped path |
| PathMapping.RelativePathUnderWebRoot | NinjaDAM.Services/Mapping/MappingProfile.cs:138-142 | when "wwwroot/" occurs, the result is "/" followed by what comes after its first occurrence |
| PathMapping.RelativePathUnderUploads | NinjaDAM.Services/Mapping/MappingProfile.cs:145-149 | without "wwwroot/" but with "/uploads/", the result starts with "/uploads/" and is a suffix of the normalised path |
| PathMapping.RelativePathOtherwise | NinjaDAM.Services/Mapping/MappingProfile.cs:151 | with neither marker, the result is the normalised path |
| PathMapping.StorageTierShape | NinjaDAM.Services/Mapping/MappingProfile.cs:44-45 | a mapped tier is trimmed, non-empty and never "string" in any case; none is stored exactly for null, blank or "string" |
| PathMapping.StorageTierIdempotent | NinjaDAM.Services/Mapping/MappingProfile.cs:44-45 | mapping an already mapped tier changes nothing |
| ZipDownload.EntryNamesAsWritten | NinjaDAM.Services/Services/AssetService.cs:627-651 | the naming loop as written gives exactly the names AsWrittenNames specifies: a file keeps its name the first time its lower-case name is seen and is otherwise renamed stem_c.ext, c counting earlier files of that lower-case name |
| ZipDownload.CountOne | NinjaDAM.Services/Services/AssetService.cs:641-651 | one step of that loop: the file's lower-case name's count goes up by one (starting at 1), and the file is renamed with the new count exactly when the name was seen before |
| ZipDownload.AsWrittenNamesAt | NinjaDAM.Services/Services/AssetService.cs:627-651 | the i-th entry is named after how many files with its lower-case name came up to and including it |
| ZipDownload.CountedNamesSameOriginal | NinjaDAM.Services/Services/AssetService.cs:641-646 | two files sharing a lower-case name get entry names that differ ignoring case, provided the later one is a plain name: no '/' and no trailing '.' |
| ZipDownload.AsWrittenCollision | NinjaDAM.Services/Services/AssetService.cs:627-653 | files named "a", "a", "a_2" get entries "a", "a_2", "a_2": a renamed entry can clash with a later file's own name |
| ZipDownload.FreshEntryName | NinjaDAM.Services/Services/AssetService.cs:639-651 | the corrected step: a file keeps its name when no earlier entry has its lower-case form, otherwise it gets stem_k.ext for the smallest k >= 2 not yet taken; the result is never taken |
| ZipDownload.EntryNames | NinjaDAM.Services/Services/AssetService.cs:627-653 | the corrected loop gives one entry per file, no two alike ignoring case, each entry its file's own name unless that is taken and a numbered form of it otherwise |
| ZipDownload.DownloadAssetsAsZip | NinjaDAM.Services/Services/AssetService.cs:607-667 | no archive exactly when no listed, undeleted asset of the caller's company (or of no company) exists; otherwise one entry per such asset whose file exists, in order, with names distinct ignoring case |
| Accounts.RoleOf | NinjaDAM.Services/Services/LoginService.cs:83 | the first of the user's roles, or "User" when there is none |
| Accounts.UserByEmail | NinjaDAM.Services/Services/LoginService.cs:54 | the user found has the address ignoring case, and none is found exactly when no user has it |
| Accounts.UserById | NinjaDAM.Services/Services/UserManagementService.cs:123 | the user found has the id, and none is found exactly when no user has it |
| Accounts.UserByIdUnique | NinjaDAM.Services/Services/UserManagementService.cs:123 | under unique ids, the lookup by a user's id finds that very user |
| Accounts.UserByEmailUpdated | NinjaDAM.Services/Services/ForgotPasswordService.cs:84-113 | writing back the user the address lookup found, address unchanged, makes the lookup find the written user at the same place |
| IdChecks.CountMatchesMeans | NinjaDAM.Services/Services/VisualTagService.cs:164 | under a unique key, the count check passes exactly when no id is requested twice and every requested id names one of the caller's rows |

## Left out

- Entity Framework plumbing: `Include`, `SaveChanges` and SQL translation. Tables are sequences held by classes. `JsonExtract` for metadata sorting is a parameter.
- The MySQL collation is a character-fold parameter in the advanced search and the asset ordering only. Every other database lookup on a string column is modelled as an exact comparison. This covers the token and name lookups outside the search, among them the next two lines. E-mail lookups ignore case, as Identity's normalised e-mail column does.
- ShareLinks.TokenIndex: compares the token exactly. The source's `FirstOrDefaultAsync(x => x.Token == token)` runs under the database's case-insensitive collation, so a token differing only in letter case would also match there.
- Permissions.DefaultsFor: compares `ByDefault` with "Editor" and "Viewer" exactly, where the database comparison follows its collation.
- Floating point: `double.TryParse` is a parser parameter that returns an exact rational. `Math.Round` is modelled as banker's rounding on that rational. `TimeSpan.Total*` followed by the `(int)` cast is computed exactly on integer ticks.
- SearchValues.ConvertToBytes: does not model the `(long)` cast overflowing for huge sizes, since the sizes are unbounded integers.
- SearchValues.ParseDate: the culture- and local-time-dependent fallback parser is a parameter. Only the exact `yyyy-MM-dd` path is worked out. The `AddDays(1)` overflow past DateTime.MaxValue is modelled; values the fallback parser might give outside DateTime's range are not excluded.
- SearchExecutor.Paginate: computes the offset `(page - 1) * pageSize` and the HasMore product `page * pageSize` without 32-bit wrap-around. The wrap of the HasMore product is shown under "Findings" (`SearchExecutor.HasMoreAsWritten`). What the database does with the negative offset a wrapped product gives is not modelled.
- `IndexOf(string)` and `StartsWith(string)` without a `StringComparison` use the current culture in C#. The model compares ordinally (`Text.IndexOf`, `Text.StartsWith`), as under invariant globalization. The two differ only on strings holding code points the culture ignores, such as a soft hyphen in front of "image/". This touches `PathMapping.RelativePath` (MappingProfile.cs:138 and :145) and `FileTypes.MimeFileType` (AssetService.cs:1542-1544).
- SearchExecutor.AdvancedSearch: the result is tied to `Expected` only when no metadata key contains a LIKE wildcard. The unescaped-key behaviour is shown separately by `SearchBuilders.MetadataKeyWildcard`.
- GUID parsing, JSON (de)serialisation and base64 encoding are parameters.
- File-system and media work is left out, because it is I/O:
  - uploads (`UploadAssetsAsync`, `UploadAssetsWithDuplicateHandlingAsync`) and checksums (`CheckForDuplicates*`);
  - single and ZIP downloads. Only the choice of files and the entry names are modelled; the byte stream is not;
  - `PermanentlyDeleteAssetAsync`, `PermanentlyDeleteAssetsAsync` and physical file deletion;
  - thumbnails and IPTC extraction (`ThumbnailService`, `IptcExtractionService`, `ExtractIptcForExistingAssetsAsync`).
- The read-only asset listings are left out, because they are plain queries outside the search compiler: `GetAssetsByFolderAsync` with `GetAllDescendantFolderIdsAsync`, `GetAssetByIdAsync`, `GetDeletedAssetsAsync`, `SearchAssetsAsync`'s text search and `GetTotalAssetCountAsync`. The same goes for `MoveAssetAsync` and `UpdateAssetAsync`.
- Identity and crypto are parameters. This covers Identity's `UserManager` and `RoleManager` (their answers and error descriptions), `PasswordHasher` (its three-valued answer and given hashes; the rehash that SuccessRehashNeeded invites is not modelled, as LoginService does not do it either), JWT signing and serialisation, and the random number generators (their draws).
- E-mail over SMTP (`SendEmailAsync`) and template file loading (`LoadEmailTemplateAsync`) are left out. So are the welcome e-mails after registration and user creation. Only `ReplacePlaceholders` is modelled.
- HTTP hosting, controllers, middleware and logging are left out. The timer loop of `RecycleBinCleanupService` is left out too; only its 30-day rule is kept.
- The database schema and the AutoMapper configuration are left out, apart from `GetRelativePath` and the storage tier. Unique indexes appear as class invariants.
- `CompanyService` and `SuperAdminService` are left out: they are lookups, flag flips and e-mail sending.
- PasswordHistory.Recent: puts entries with the same `ChangedOn` in one fixed order. The database's ORDER BY fixes none, so when such entries straddle the fifth place, `Take(5)` may check a different set of them than the model does.
- Shuffles.Shuffle: states only that the result is a permutation of the characters; the body sorts them by their keys. That LINQ's `OrderBy` keeps equal keys in input order is not proved.
- Text.Lower: lower-cases ASCII letters only, where .NET's `ToLower` and `ToLowerInvariant` also map non-ASCII capitals ("Ä" to "ä", the Kelvin sign U+212A to "k"). Name keys built on it therefore do not identify such case pairs: `Register.CompanyIndex`, `Groups.NameCheckPasses`, `VisualTags.NameFree`, `Collections.NameFree`, `MetadataFields.NameFree`, `Vocabulary.ValueFree`, `EmailOtp.EmailKey` and the e-mail lookups of `Accounts.UserByEmail`. So "Ärzte" and "ärzte" are two names in the model and one in the source.
- Concurrency: every operation is one sequential step.
- Batch operations read one `now` for the whole call, where the source reads `DateTime.UtcNow` once per row.
- The exception that default permission assignment may raise, which registration and user creation swallow, is not modelled. Assignment succeeds when the role is known.
- Cascading deletes configured in the database are not modelled. The rows the services delete explicitly are.
- Group ids in user updates are not checked to exist, as in the source, and the foreign key is not modelled.
- User lists are ordered by e-mail under a culture ordering given as a parameter.
- The Company and Group navigations of the user DTOs are not modelled. The group and company names are looked up in the tables.
- AdminShareLinks.ListingAssetRows: the listing's joined and derived DTO fields are not modelled: `CreatedByName` (the creator's name, "Unknown User" when missing), `AssetOrCollectionName` (the asset's name, "Unknown Asset" when missing), `TimeRemaining` and `ShareUrl`. They are lookups and text formatting; a row is the link as stored.
- AdminShareLinks.ListingCollectionRows: the same DTO fields are not modelled, with "Unknown Collection" as the missing name.
- AdminShareLinks.DeleteShareLink: the "Deleted" record's details keep the link's token but not the asset or collection name the source writes next to it.
- ShareRules.ExpiryWindow and ShareService.CreateShareLink: the custom expiration date is taken as already in UTC. The source's `ToUniversalTime()` depends on the server's time zone and on the value's `Kind`, and is not modelled.
- Carts: the `ThumbnailPath` of `CartItemDto` is not modelled; it is a copy of the asset's column.
- TempPasswords: the rule that raises a length below 4 to 8 exists only in `RegisterService`, and `UserManagementService` always asks for 12. Both are modelled with their own lengths.
- UserManagement.UserDirectory.UpdateUser: has no guard against self-deactivation (`UpdateUserStatusAsync` has one), and it is modelled as written.
- ResetPassword: `ChangePasswordAsync` finds the user with Identity's `FindByEmailAsync`. The model uses the same case-insensitive address lookup as every other service.

## Findings

| source | as written | input that shows it | evidently intended | confidence | as-written member | corrected member |
|---|---|---|---|---|---|---|
| NinjaDAM.Services/Services/AssetService.cs:641-651 | the ZIP naming loop counts only the original file names, never the renamed entries it produced | files named "a", "a", "a_2" give entries "a", "a_2", "a_2" | every entry name distinct, ignoring case | not executed; medium | ZipDownload.EntryNamesAsWritten, ZipDownload.AsWrittenCollision | ZipDownload.EntryNames, ZipDownload.DownloadAssetsAsZip |
| NinjaDAM.Services/Services/FolderService.cs:235-239 | the guard walks only the proper ancestors of the new parent, so a folder can be moved under itself | `MoveFolderAsync(f, f)` for any folder `f` passes the guard | the comment's rule: no move into the folder itself or any of its descendants | not executed; high | Folders.MoveRejectedAsWritten, Folders.SelfMoveSlipsThrough | Folders.MoveRejected, Folders.FolderStore.MoveFolder, Folders.MovedValid |
| NinjaDAM.Services/Services/CollectionService.cs:224-234 | AssetCount is counted from the database before `SaveAsync` stores the links just added | adding one new asset to an empty collection leaves AssetCount at 0 | AssetCount equals the number of links after the call | not executed; medium | Collections.AddedCountAsWrittenIsStale | Collections.AddedCount, Collections.CollectionStore.AddAssets |
| NinjaDAM.Services/Services/RegisterService.cs:51-55 | the input name is trimmed before comparison, but the stored name it is compared with is not, and a new company is stored untrimmed | registering twice with company name " Acme" creates two companies | equal names, once trimmed and ignoring case, share one company | not executed; medium | Register.CompanyIndexAsWritten, Register.PaddedNameNotFound, Register.PaddedAcmeNotFound | Register.CompanyIndex, Register.SameKeySameCompany, Register.CompaniesAfterJoin |
| NinjaDAM.Services/Services/AssetService.cs:819 | `page * pageSize.Value` is an unchecked 32-bit product | page 32768 and page size 65536 over one matching row: the offset 32767 × 65536 still fits, so the page is empty, but the product 2^31 wraps to -2^31 and HasMore is true, though nothing follows | HasMore holds exactly when the next page has rows | not executed; medium | SearchExecutor.HasMoreAsWritten, SearchExecutor.HasMoreWraps | SearchExecutor.Paginate, SearchExecutor.PaginateHasMore, SearchExecutor.ExpectedHasMore |
