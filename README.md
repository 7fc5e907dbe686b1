# Plan Tracker — a Dafny model of its services and client helpers

Plan Tracker is a Telegram mini-app for shared shopping and task lists. A
user owns lists, products, storage locations and shopping-list templates, and
can share each of them with families whose members hold an ADMIN or READER
role. The backend services check access, keep items ordered (checked items
after unchecked ones, manual or creation-time order), reset repeating items
once they expire, deduplicate items by product or by a normalised title key,
merge templates into lists, search across accessible lists, and format a
list as a Telegram message. The frontend helpers format prices and list
costs, choose plural forms, pick the interface language and theme, keep the
settings draft in step with the server snapshot, and drive the entity tabs
(tag filter, selection, soft delete with undo).

How the model is built:

- `Store` holds one row datatype per table and the class `Store.Db`, whose
  fields are the tables as `map`s (rows by id) and `set`s (join tables).
  Each service operation is a method on a `Db` that modifies exactly the
  tables the source's code writes, and is proved against a pure function
  that gives the new table and the result. Lemmas about those functions
  state what the services promise (access rules, ordering, no dangling
  references after a cascade, idempotent sharing, and so on).
- A failure is a `Result` value: a `ServiceError` of kind NotFound,
  Forbidden or BadRequest, a plain `Error` message, or Prisma's
  record-not-found. A transaction that fails leaves every table as it was.
- The clock, fresh ids, the invite token, the Telegram colour scheme and
  language code, and the answers of the network calls are parameters.
- Pure helpers (`normalizeKey`, `isRepeatExpired`, the price and
  pluralisation utilities, the settings diff) are functions with lemmas; the
  settings store and the entity tab composable are classes whose methods
  update their fields.
- Integers are unbounded; JavaScript's number formatting is modelled for
  whole numbers only.

## Model

| member | source | states |
|---|---|---|
| Errors.FactoriesTagKinds | plan-tracker-back/src/common/errors/service-error.ts:5-24 | `notFound`, `forbidden` and `badRequest` each tag the error with their own kind, keep the message unchanged, carry the name `ServiceError`, and give three distinct errors |
| ErrorHandler.KindOfName | plan-tracker-back/src/plugins/error-handler.ts:29 | a legacy type name is recognised only when it is exactly `NotFound`, `Forbidden` or `BadRequest`, and the kind it gives prints back as that name |
| ErrorHandler.StatusCode | plan-tracker-back/src/plugins/error-handler.ts:14-21 | `reply.notFound`, `reply.forbidden` and `reply.badRequest` answer 404, 403 and 400, one status per kind |
| ErrorHandler.ReplyStatus | plan-tracker-back/src/plugins/error-handler.ts:11-42 | the handler answers with a status exactly when it replies: a `ServiceError` with the status of its kind, always one of 400, 403 and 404; a Prisma record-not-found gets none, being re-thrown |
| ErrorHandler.Handle | plan-tracker-back/src/plugins/error-handler.ts:11-42 | a `ServiceError` gets the reply of its own kind and message; a Prisma record-not-found and a plain message without a colon are re-thrown unchanged |
| ErrorHandler.LegacyMessage | plan-tracker-back/src/plugins/error-handler.ts:25-42 | a plain `Type:rest` message is split at its first colon; it gets the reply of that kind with the trimmed rest (later colons kept) exactly when the type is a known name and the trimmed rest is non-empty, and is re-thrown otherwise |
| ErrorHandler.LegacyAgreesWithServiceError | plan-tracker-back/src/plugins/error-handler.ts:13-37 | a legacy message `Kind:message` with a trimmed, non-empty message gets the same reply as the `ServiceError` of that kind and message |
| Dates.IsRepeatExpired | backend/src/common/utils/dates.ts:7-11 | an item expires only when it has a check time and a non-zero period; then it has expired exactly when at least period × 86 400 000 ms have passed since the check |
| Dates.ExpiryIsMonotone | backend/src/common/utils/dates.ts:7-11 | once expired, an item stays expired at every later time |
| Dates.Examples | backend/src/common/utils/dates.ts:7-11 | no check time or no period never expires; eight days after a 7-day check has expired, six days has not |
| MergeView.WithoutKeys | backend/src/common/utils/merge-personal-and-family.ts:11 | the kept family entries are an ordered subsequence with no taken key, and every entry whose key is not taken is kept |
| MergeView.MergePersonalAndFamily | backend/src/common/utils/merge-personal-and-family.ts:6-13 | the personal half is returned unchanged; the family half keeps, in order, exactly the entries whose normalized key no personal entry has |
| MergeView.NoKeyInBothHalves | backend/src/common/utils/merge-personal-and-family.ts:10-12 | no normalized key appears in both halves of the merged view |
| FamilyAccess.RequireFamilyMember | backend/src/common/services/family-access.service.ts:16-23 | succeeds exactly when the (family, user) membership row exists and returns that row; otherwise fails Forbidden "Not a family member" |
| FamilyAccess.RequireFamilyAdmin | backend/src/common/services/family-access.service.ts:29-33 | succeeds exactly when the caller's role in the family is ADMIN, returning the same row as the membership check; a non-member fails "Not a family member", a READER fails Forbidden "Admin role required" |
| FamilyAccess.AdminIsMember | backend/src/common/services/family-access.service.ts:29-33 | passing the admin check implies passing the membership check, with the same row |
| ListsAccess.GetListOrThrow | plan-tracker-back/src/modules/lists/services/lists-access.service.ts:16-26 | succeeds exactly for a stored list id and returns the row with its set of sharing families; otherwise fails NotFound "List not found" |
| ListsAccess.GetUserFamilyRole | plan-tracker-back/src/modules/lists/services/lists-access.service.ts:31-37 | the stored role when the membership row exists, null otherwise, agreeing with the membership check |
| ListsAccess.AssertAccess | plan-tracker-back/src/modules/lists/services/lists-access.service.ts:43-94 | the loops over memberships and shares compute exactly the access rule: owner first, then private list, then some sharing family whose role grants the level, else the level's denial message; nothing is modified |
| ListsAccess.MissingList | plan-tracker-back/src/modules/lists/services/lists-access.service.ts:22-24 | an unknown list fails NotFound "List not found" for every caller and level, before any permission check |
| ListsAccess.OwnerHasFullAccess | plan-tracker-back/src/modules/lists/services/lists-access.service.ts:51-53 | the owner is granted READ and WRITE whatever the shares and memberships |
| ListsAccess.PrivateListIsOwnerOnly | plan-tracker-back/src/modules/lists/services/lists-access.service.ts:56-58 | a non-owner of a list with no family shares fails Forbidden "Access denied: Private list" |
| ListsAccess.ReadAccessIff | plan-tracker-back/src/modules/lists/services/lists-access.service.ts:76-83 | a non-owner gets READ exactly when they hold a role in some family the list is shared with; memberships elsewhere do not count |
| ListsAccess.WriteAccessIff | plan-tracker-back/src/modules/lists/services/lists-access.service.ts:85-88 | a non-owner gets WRITE exactly when they are ADMIN in some family the list is shared with |
| ListsAccess.WriteImpliesRead | plan-tracker-back/src/modules/lists/services/lists-access.service.ts:76-93 | whenever WRITE is granted READ is granted with the same list; a denied WRITE on a shared list fails "Write access requires family admin role" |
| NormalizeKey.NormalizedIsKey | backend/src/common/utils/normalize-key.ts:1-7 | every key is trimmed, single-spaced, and made only of lower-cased letters, numbers and separating spaces |
| NormalizeKey.NormalizeNullable | backend/src/common/utils/normalize-key.ts:2 | a missing input has the empty key; every result is a key |
| NormalizeKey.BlankPictographsChars | backend/src/common/utils/normalize-key.ts:3 | each pictographic character becomes one space and every other character is kept in place |
| NormalizeKey.BlankPunctuationChars | backend/src/common/utils/normalize-key.ts:4 | each character that is neither a letter, a number nor white space becomes one space; the rest are kept in place |
| NormalizeKey.CollapseSpaces | backend/src/common/utils/normalize-key.ts:6 | the result is no longer than the input, and a non-empty input gives a result that starts with a space or with the input's first character |
| NormalizeKey.CollapseSpacesShape | backend/src/common/utils/normalize-key.ts:6 | the collapsed string is single-spaced and holds only spaces and characters of the input |
| NormalizeKey.LowerAllChars | backend/src/common/utils/normalize-key.ts:2 | lower-casing the string lower-cases each character in place |
| NormalizeKey.LowerFacts | backend/src/common/utils/normalize-key.ts:2 | lower-casing a character is idempotent and keeps it a letter or number, or white space |
| NormalizeKey.LowerOffsetSound | backend/src/common/utils/normalize-key.ts:2 | wherever the simple case table moves a code point, the code point and its lower case are both Latin or Cyrillic letters, and the lower case is not moved again |
| NormalizeKey.LowerExamples | backend/src/common/utils/normalize-key.ts:2 | Ґ, Ā, Ÿ, ǅ, Я and Ё lower to ґ, ā, ÿ, ǆ, я and ё, so "Ґанок" lowers to "ґанок"; digits and spaces are kept |
| NormalizeKey.KeyWordChars | backend/src/common/utils/normalize-key.ts:1-7 | the key keeps exactly the input's letters and numbers, each lowered by the case mapping, in their order |
| NormalizeKey.EmptyKey | backend/src/common/utils/normalize-key.ts:1-7 | the key is empty exactly when the input has no letter and no number |
| NormalizeKey.Idempotent | backend/src/common/utils/normalize-key.ts:1-7 | normalising a key gives the same key |
| NormalizeKey.ExampleMissing | backend/src/common/utils/normalize-key.ts:2 | a missing input gives the empty key |
| Text.Trim | plan-tracker-back/src/plugins/error-handler.ts:27 | the trimmed string neither starts nor ends with white space |
| Text.TrimIsSlice | plan-tracker-back/src/plugins/error-handler.ts:27 | `trim` keeps one contiguous slice of the input and removes only the white space before and after it |
| Text.TrimEmpty | backend/src/common/utils/normalize-key.ts:6 | `trim` gives the empty string exactly when the input is all white space |
| Text.Split | plan-tracker-back/src/plugins/error-handler.ts:26 | `split(":")` gives at least one part and no part contains the separator |
| Text.JoinSplit | plan-tracker-back/src/plugins/error-handler.ts:26-27 | joining the parts of a split on the same separator gives the input back |
| Text.SplitAtFirst | plan-tracker-back/src/plugins/error-handler.ts:26 | a separator-free prefix before the first separator is the first part, and the remaining parts are the split of the rest |
| Templates.RequireOwnedTemplate | backend/src/modules/templates/service.ts:15-22 | succeeds exactly for a stored template the caller owns, returning it; an unknown id fails NotFound "Template not found", a non-owner Forbidden "Only owner can modify" |
| Templates.EnsureProductsOwned | backend/src/modules/templates/service.ts:24-33 | passes exactly when the ids are distinct and each names a product the caller owns (so the empty batch passes); otherwise Forbidden "Referenced products must be owned by current user" |
| Templates.Get | backend/src/modules/templates/service.ts:131-151 | an unknown id fails NotFound "Template not found"; a known template is returned unchanged or denied with Forbidden "Access denied" |
| Templates.GetIffVisible | backend/src/modules/templates/service.ts:139-148 | `get` succeeds exactly for the owner or a member of a family the template is shared with |
| Templates.OwnerCanGet | backend/src/modules/templates/service.ts:139 | the owner always passes `get`, with the same template the ownership check returns |
| Templates.StartOrder | backend/src/modules/templates/service.ts:198-203 | the start index is above every index of the template's items and one past the largest of them, or 0 for a template without items |
| Templates.FindStartOrder | backend/src/modules/templates/service.ts:198-203 | the scan over the item table computes that start index |
| Templates.AddedItemsFacts | backend/src/modules/templates/service.ts:211-226 | `createMany` adds exactly one new item per product id, keeps every existing item, and numbers the new ones from the start index in order |
| Templates.AddedItemsAtEnd | backend/src/modules/templates/service.ts:203-224 | each added item belongs to the template, refers to its product, has quantity 1 and index start + i, above every existing item of the template; an empty template starts at 0 |
| Templates.AddItems | backend/src/modules/templates/service.ts:194-229 | owner check first, then the product check; on success the item table is exactly the one with the new items appended and the template is returned; on failure nothing changes |
| Templates.DropTemplateShares | backend/src/modules/templates/service.ts:281 | removes exactly the shares of the deleted templates |
| Templates.DropTemplateItems | backend/src/modules/templates/service.ts:282 | removes exactly the items of the deleted templates and keeps the others unchanged |
| Templates.CascadeTemplates | backend/src/modules/templates/service.ts:280-284 | one transaction deletes the shares, the items and the templates of the given ids |
| Templates.CascadeLeavesNoDangling | backend/src/modules/templates/service.ts:262-266 | after the cascade no share and no item refers to a deleted template |
| Templates.Remove | backend/src/modules/templates/service.ts:259-269 | owner only; on success the template, its shares and its items are gone, on failure nothing changes |
| Templates.RemoveMany | backend/src/modules/templates/service.ts:271-287 | passes exactly when the ids are distinct templates the caller owns, else Forbidden "Some templates not found or not owned by you" with nothing changed; on success all of them cascade |
| Templates.ReferencedProducts | backend/src/modules/templates/service.ts:40-47 | exactly the product ids that items of the given templates refer to |
| Templates.DependencyShares | backend/src/modules/templates/service.ts:35-67 | only adds product shares; every referenced product the caller owns becomes shared with the family, and nothing else is added |
| Templates.SharedTemplate | backend/src/modules/templates/service.ts:289-297 | owner check, then family-admin check; on success the share table gains exactly (family, template) |
| Templates.Share | backend/src/modules/templates/service.ts:289-302 | the template share upsert, then the dependency product shares for that template; on failure neither table changes |
| Templates.ShareIdempotent | backend/src/modules/templates/service.ts:293-299 | sharing the same template with the same family twice leaves both share tables as once |
| Templates.UnsharedTemplate | backend/src/modules/templates/service.ts:304-310 | owner only; deleting an absent share fails as a record-not-found; on success exactly that share is removed |
| Templates.Unshare | backend/src/modules/templates/service.ts:304-310 | the share table becomes the unshared table, or is left unchanged on failure |
| Templates.SetSharing | backend/src/modules/templates/service.ts:312-365 | family admin only; the template shares become the replacement of the caller's shares with the family, and the caller-owned products of the allowed templates are shared with it |
| Templates.Reorder | backend/src/modules/templates/service.ts:367-378 | every id must be a template the caller owns, else the transaction aborts with nothing changed; on success the table is the 0-based renumbering |
| Sharing.OwnedAmong | backend/src/modules/templates/service.ts:272-274 | the ids of the rows the batch query finds: each given id that names a row the caller owns |
| Sharing.BatchGate | backend/src/modules/templates/service.ts:276-278 | the count test passes exactly when the ids are distinct and each names a row the caller owns |
| Sharing.ReplacedSharesExact | backend/src/modules/templates/service.ts:322-331 | after `setSharing` a row the caller owns is shared with the family exactly when it was requested; shares with other families and of rows the caller does not own are as they were |
| Sharing.ReplacedSharesIdempotent | backend/src/modules/templates/service.ts:322-331 | repeating the same `setSharing` request changes nothing more |
| Sharing.OwnedReorder | backend/src/modules/templates/service.ts:368-375 | fails as a record-not-found exactly when some id is missing or not the caller's; otherwise keeps the table's ids and leaves unnamed rows unchanged |
| Sharing.OwnedReorderIndices | backend/src/modules/templates/service.ts:369-373 | with no repeated id, `orderedIds[i]` gets index i |
| Reorder.LastIndex | backend/src/modules/lists/services/lists.service.ts:275-285 | the position of the last occurrence of an id |
| Reorder.Renumbered | backend/src/modules/lists/services/lists.service.ts:275-285 | the updates in order: each named row gets the index of its id's last occurrence, unnamed rows are unchanged, and no row is added or removed |
| Reorder.DistinctIdsTakeTheirIndex | backend/src/modules/lists/services/lists.service.ts:279-283 | with no repeated id, `orderedIds[i]` gets index i |
| Common.BatchCountTest | backend/src/modules/lists/services/lists.service.ts:209-223 | the count of rows passing a filter equals the number of ids exactly when the ids are distinct and every one passes |
| Common.ElementsCardinality | backend/src/modules/templates/service.ts:27-31 | a sequence has as many distinct elements as its length exactly when it has no repeats |
| Lists.RowOrderIsTotalPreorder | backend/src/modules/lists/services/lists.service.ts:78 | ordering by sort index, then creation time, is a total preorder, so the sorted result is well defined up to ties |
| Lists.OrderedRows | backend/src/modules/lists/services/lists.service.ts:71-79 | `findMany` with that `orderBy`: exactly the stored rows that pass the filter, each once, sorted by sort index then creation time |
| Lists.FindOrdered | backend/src/modules/lists/services/lists.service.ts:71-80 | the views of exactly the rows that pass the filter, current with the store, ids unique, in order |
| Lists.FirstIds | backend/src/modules/lists/services/lists.service.ts:119-124 | the ids in order of first appearance: no repeats, and the same ids as the input |
| Lists.FirstIdsOfDistinct | backend/src/modules/lists/services/lists.service.ts:119-124 | a sequence without repeats comes out of the de-duplication unchanged |
| Lists.FirstIdsAppend | backend/src/modules/lists/services/lists.service.ts:120 | de-duplicating owned ++ shared gives the owned ids followed by the shared ids not already owned |
| Lists.WithoutKeepsOrder | backend/src/modules/lists/services/lists.service.ts:114 | dropping ids from a sorted id sequence keeps it sorted |
| Lists.DedupById | backend/src/modules/lists/services/lists.service.ts:118-124 | the map loop keeps each list once, at the position of its first occurrence, with its current row and shares |
| Lists.OwnedThenShared | backend/src/modules/lists/services/lists.service.ts:102-124 | the merged ids have no repeats, owned lists come first, and each half stays in list order |
| Lists.AllAccessible | backend/src/modules/lists/services/lists.service.ts:101-124 | the unfiltered branch returns exactly the lists the user owns or that are shared with a family they belong to, each once, owned first, each half in order |
| Lists.ListMyLists | backend/src/modules/lists/services/lists.service.ts:63-125 | returns exactly the lists in scope, each once: with `familyId === null` the user's own lists without shares, with a family id the lists shared with that family when the user is a member of it, otherwise owned ∪ shared with owned first; the two filtered branches are sorted |
| Lists.NewList | backend/src/modules/lists/services/lists.service.ts:148-162 | the new row copies the request's fields; sort mode defaults to CREATED_AT and `groupByLocations` is true only when requested |
| Lists.CreateDefaults | backend/src/modules/lists/services/lists.service.ts:156-157 | with neither given, the sort mode is CREATED_AT and `groupByLocations` is false |
| Lists.CreatorHasFullAccess | backend/src/modules/lists/services/lists.service.ts:148-162 | the creator can read and write the new list, and it is one of their personal lists |
| Lists.CreateList | backend/src/modules/lists/services/lists.service.ts:148-165 | the list table gains exactly the new row, and its view is returned |
| Lists.DropLists | backend/src/modules/lists/services/lists.service.ts:222 | removes exactly the named lists and keeps the others unchanged |
| Lists.DropShares | backend/src/modules/lists/services/lists.service.ts:219 | removes exactly the shares of the named lists |
| Lists.DropItems | backend/src/modules/lists/services/lists.service.ts:220-221 | removes exactly the items of the named lists and keeps the others unchanged |
| Lists.CascadeLeavesNoDangling | backend/src/modules/lists/services/lists.service.ts:196-201 | after the cascade no share or item refers to a deleted list, a deleted list is NotFound for everyone, and other lists keep their shares |
| Lists.Cascade | backend/src/modules/lists/services/lists.service.ts:218-223 | one transaction deletes the shares, the shopping items, the task items and the lists of the given ids |
| Lists.DeleteList | backend/src/modules/lists/services/lists.service.ts:193-204 | needs WRITE only, so a sharing family's admin may delete; on success the list, its shares and its items are gone, on failure nothing changes |
| Lists.OwnedAmong | backend/src/modules/lists/services/lists.service.ts:210-212 | the lists the batch query finds: each given id that names a list the caller owns |
| Lists.DeleteListsGate | backend/src/modules/lists/services/lists.service.ts:214-216 | the count test passes exactly when the ids are distinct lists the caller owns |
| Lists.DeleteLists | backend/src/modules/lists/services/lists.service.ts:209-226 | all or nothing: Forbidden "Some lists not found or not owned by you" with nothing changed unless every id is a distinct owned list; on success all of them cascade |
| Lists.OwnerCheck | backend/src/modules/lists/services/lists.service.ts:232-236 | NotFound "List not found" for an unknown list, Forbidden "Only list owner can change sharing" for a non-owner |
| Lists.Shared | backend/src/modules/lists/services/lists.service.ts:231-250 | owner only, then ADMIN of the family ("Family admin role required to share"); on success the list's family set gains the family and other lists' shares are untouched |
| Lists.ShareIdempotent | backend/src/modules/lists/services/lists.service.ts:246-250 | sharing the same list with the same family again leaves the share table as it is |
| Lists.ShareGrantsFamily | backend/src/modules/lists/services/lists.service.ts:231-250 | after sharing, every member of the family can read the list and every admin of it can write it |
| Lists.Unshared | backend/src/modules/lists/services/lists.service.ts:258-268 | owner only; deleting an absent share fails as a record-not-found; on success exactly that family leaves the list's family set |
| Lists.ShareThenUnshare | backend/src/modules/lists/services/lists.service.ts:231-268 | unsharing a freshly added share restores the share table |
| Lists.ShareList | backend/src/modules/lists/services/lists.service.ts:231-253 | the share table becomes the shared table, or is unchanged on failure |
| Lists.UnshareList | backend/src/modules/lists/services/lists.service.ts:258-270 | the share table becomes the unshared table, or is unchanged on failure |
| Lists.ReorderedLists | backend/src/modules/lists/services/lists.service.ts:275-285 | with no ownership check, an unknown id aborts the transaction as a record-not-found; otherwise the table keeps its ids and unnamed lists are unchanged |
| Lists.ReorderListsIndices | backend/src/modules/lists/services/lists.service.ts:279-283 | with no repeated id, `orderedIds[i]` gets sort index i, 0-based |
| Lists.ReorderLists | backend/src/modules/lists/services/lists.service.ts:275-287 | the list table becomes the reordered table, or is unchanged on failure |
| BaseItems.ListOrderIsTotalPreorder | plan-tracker-back/src/common/services/base-items.service.ts:65-69 | unchecked before checked, then sort index, then creation time, is a total preorder |
| BaseItems.FetchOrdered | plan-tracker-back/src/common/services/base-items.service.ts:63-70 | exactly the list's stored items, with no id twice, sorted unchecked first, then by sort index and creation time |
| BaseItems.DueIds | plan-tracker-back/src/common/services/base-items.service.ts:73-79 | the ids of exactly the fetched items that are checked and expired |
| BaseItems.ResetAll | plan-tracker-back/src/common/services/base-items.service.ts:82-85 | the bulk update unchecks and clears `checkedAt` of exactly the named items and leaves all others as they were |
| BaseItems.SweepResetsExactlyDue | plan-tracker-back/src/common/services/base-items.service.ts:73-85 | after the sweep an item of the list is reset exactly when it was checked and expired; every other item is unchanged |
| BaseItems.SweepIsIdempotent | plan-tracker-back/src/common/services/base-items.service.ts:73-94 | after a sweep no checked item of the list is expired, so a second sweep changes nothing |
| BaseItems.NoRepeatFieldNoSweep | plan-tracker-back/src/common/services/base-items.service.ts:19-78 | an item model without a `repeatEveryDays` field never expires, so the sweep changes nothing |
| BaseItems.SweepKeepsCheckedConsistent | plan-tracker-back/src/common/services/base-items.service.ts:82-92 | the sweep keeps `isChecked` ⇔ `checkedAt ≠ null` for every item |
| BaseItems.ResetInMemory | plan-tracker-back/src/common/services/base-items.service.ts:87-93 | the in-memory loop resets exactly the expired items and keeps the order of the fetched rows |
| BaseItems.ReturnedRowsMatchStore | plan-tracker-back/src/common/services/base-items.service.ts:73-96 | the returned rows are exactly the list's items as stored after the sweep |
| BaseItems.DueIdsAreDueInList | plan-tracker-back/src/common/services/base-items.service.ts:73-79 | the expired ids found among the fetched rows are exactly the list's checked, expired items |
| BaseItems.SweepRows | plan-tracker-back/src/common/services/base-items.service.ts:63-96 | the table after the sweep; the returned rows are the fetched rows (the list's items, each once, in listing order) position by position, with exactly the due ones reset in place and not re-sorted, and they agree with the stored table |
| BaseItems.ListItems | plan-tracker-back/src/common/services/base-items.service.ts:60-97 | READ access first, with nothing changed on failure; then the table is the swept table, and the returned rows are the list's items in listing order, each once, with the due ones reset in place and not re-sorted, as stored after the sweep; the other item table is untouched |
| BaseItems.MaxOf | plan-tracker-back/src/common/services/base-items.service.ts:122-126 | the `_max` aggregate: an element of the set no smaller than any other |
| BaseItems.NextSortIndex | plan-tracker-back/src/common/services/base-items.service.ts:122-135 | `(max ?? 0) + 1` over a group: above every index in the group and one past its largest, or 1 for an empty group |
| BaseItems.AggregateNext | plan-tracker-back/src/common/services/base-items.service.ts:122-135 | the scan over the table computes that next index |
| BaseItems.Toggled | plan-tracker-back/src/common/services/base-items.service.ts:111-115 | fails BadRequest "Item not found" exactly when the item is missing or belongs to another list |
| BaseItems.ToggleMovesToGroupEnd | plan-tracker-back/src/common/services/base-items.service.ts:117-145 | only the target changes; it gets the requested state, `checkedAt` = now exactly when checked, a group change moves it after every other item of its new group, a same-state toggle keeps its index, and no other field changes |
| BaseItems.ToggleKeepsCheckedConsistent | plan-tracker-back/src/common/services/base-items.service.ts:138-145 | toggling keeps `isChecked` ⇔ `checkedAt ≠ null` |
| BaseItems.ToggleTwiceKeepsPosition | plan-tracker-back/src/common/services/base-items.service.ts:117-145 | toggling to the same state again keeps the position and only refreshes `checkedAt` |
| BaseItems.ToggleItem | plan-tracker-back/src/common/services/base-items.service.ts:103-148 | WRITE access is checked before the item lookup; on success the table is the toggled table and the updated row is returned; on failure nothing changes |
| BaseItems.Removed | plan-tracker-back/src/common/services/base-items.service.ts:156-162 | fails BadRequest "Item not found" for a missing item or one in another list; otherwise deletes exactly that item |
| BaseItems.RemoveItem | plan-tracker-back/src/common/services/base-items.service.ts:153-165 | WRITE access first, then the lookup; on success the table is the removed table, on failure nothing changes |
| BaseItems.LastPosition | backend/src/modules/lists/services/shopping-items.service.ts:320-325 | the 1-based position of an id's last occurrence, which is the update that runs last |
| BaseItems.PositionedEffect | backend/src/modules/lists/services/shopping-items.service.ts:320-325 | each named item gets its 1-based position as sort index and nothing else changes; unnamed items are as they were |
| BaseItems.Reordered | backend/src/modules/lists/services/shopping-items.service.ts:304-328 | the checks in the source's order: an empty request fails BadRequest "orderedIds is required"; then an existing item of another list fails BadRequest "Some items do not belong to list"; then an existing item of the other checked group fails BadRequest "checked-group mismatch"; then an unknown id makes its update fail with record-not-found; it succeeds exactly when every id is an item of the list in the requested group, giving the positioned table |
| BaseItems.ReorderNumbersInOrder | backend/src/modules/lists/services/shopping-items.service.ts:320-325 | with no repeated id, `orderedIds[i]` gets sort index i + 1 and no other item changes |
| BaseItems.ApplyPositions | backend/src/modules/lists/services/shopping-items.service.ts:320-325 | the transaction's loop computes the positioned table |
| BaseItems.ReorderItems | backend/src/modules/lists/services/shopping-items.service.ts:296-330 | the reorder both item services share: WRITE access first; on success the chosen table is the reordered table, on failure nothing changes, and the other table is untouched |
| ShoppingItems.EnsureProductAllowed | backend/src/modules/lists/services/shopping-items.service.ts:30-62 | the list must exist (NotFound "List not found"), then the product (BadRequest "Product not found"); another owner's product on a private list fails "Product must belong to current user", and on a shared list without that product shared to one of its families fails "Product is not available for this list" |
| ShoppingItems.ProductAllowedIff | backend/src/modules/lists/services/shopping-items.service.ts:30-62 | a product is accepted exactly when the list and product exist and the user owns the product or it is shared to one of the list's families |
| ShoppingItems.CreatedTitle | backend/src/modules/lists/services/shopping-items.service.ts:158-164 | a non-empty given title is kept; otherwise the title of the named product, if it exists; otherwise the empty title |
| ShoppingItems.CreatedItemFacts | backend/src/modules/lists/services/shopping-items.service.ts:150-176 | a created item is unchecked, belongs to the list, comes after every unchecked item of the list (index 1 in an empty group), has the given quantity or 1, the given product, and the normalised key of its title |
| ShoppingItems.CreateItem | backend/src/modules/lists/services/shopping-items.service.ts:139-179 | WRITE access, then the product check; on success exactly the new item is added and returned, on failure nothing changes |
| ShoppingItems.UpdateChangesOnlySupplied | backend/src/modules/lists/services/shopping-items.service.ts:205-214 | only the supplied quantity, product, title, repeat period and sort index change; the normalised key, `isChecked` and `checkedAt` are untouched; an empty request changes nothing |
| ShoppingItems.Updated | backend/src/modules/lists/services/shopping-items.service.ts:197-214 | fails BadRequest "Item not found" for a missing item or one in another list; otherwise only that item changes |
| ShoppingItems.UpdateItem | backend/src/modules/lists/services/shopping-items.service.ts:184-218 | WRITE access, then the product check when a product is named, then the lookup; on success the table is the updated table and the row is returned, on failure nothing changes |
| ShoppingItems.ListItems | backend/src/modules/lists/services/shopping-items.service.ts:100-133 | READ access first, with nothing changed on failure; then the shopping table is the swept table with the repeat period read, the returned rows are the list's items in listing order, each once, with the due ones reset in place and not re-sorted, as stored after the sweep; the task table is untouched |
| ShoppingItems.ToggleItem | backend/src/modules/lists/services/shopping-items.service.ts:224-271 | WRITE access before the lookup; on success the shopping table is the toggled table and the updated row is returned; on failure nothing changes; the task table is untouched |
| ShoppingItems.RemoveItem | backend/src/modules/lists/services/shopping-items.service.ts:276-290 | WRITE access, then the lookup; on success the shopping table is the removed table, on failure nothing changes; the task table is untouched |
| ShoppingItems.ReorderItems | backend/src/modules/lists/services/shopping-items.service.ts:296-330 | WRITE access, then the reorder checks; on success the shopping table is the reordered table, on failure nothing changes; the task table is untouched |
| TaskItems.CreatedTaskFacts | plan-tracker-back/src/modules/lists/services/task-items.service.ts:98-114 | a created task is unchecked, belongs to the list, comes after every unchecked item of the list (index 1 in an empty group), keeps the given title, duration and repeat period, and has the normalised key of its title |
| TaskItems.CreateItem | plan-tracker-back/src/modules/lists/services/task-items.service.ts:95-117 | WRITE access; on success exactly the new task is added and returned, on failure nothing changes |
| TaskItems.UpdateTaskChangesOnlySupplied | plan-tracker-back/src/modules/lists/services/task-items.service.ts:138-146 | the title, duration and repeat period are rewritten as supplied; the key is recomputed only for a non-empty new title; sort index, `isChecked` and `checkedAt` are untouched |
| TaskItems.Updated | plan-tracker-back/src/modules/lists/services/task-items.service.ts:130-146 | fails BadRequest "Item not found" for a missing item or one in another list; otherwise only that item changes |
| TaskItems.UpdateItem | plan-tracker-back/src/modules/lists/services/task-items.service.ts:122-149 | WRITE access, then the lookup; on success the table is the updated table and the row is returned, on failure nothing changes |
| TaskItems.ListItems | plan-tracker-back/src/modules/lists/services/task-items.service.ts:57-90 | READ access first, with nothing changed on failure; then the task table is the swept table with the repeat period read, the returned rows are the list's tasks in listing order, each once, with the due ones reset in place and not re-sorted, as stored after the sweep; the shopping table is untouched |
| TaskItems.ToggleItem | plan-tracker-back/src/modules/lists/services/task-items.service.ts:154-201 | WRITE access before the lookup; on success the task table is the toggled table and the updated row is returned; on failure nothing changes; the shopping table is untouched |
| TaskItems.RemoveItem | plan-tracker-back/src/modules/lists/services/task-items.service.ts:206-220 | WRITE access, then the lookup; on success the task table is the removed table, on failure nothing changes; the shopping table is untouched |
| TaskItems.ReorderItems | plan-tracker-back/src/modules/lists/services/task-items.service.ts:226-261 | WRITE access, then the reorder checks; on success the task table is the reordered table, on failure nothing changes; the shopping table is untouched |
| ListTemplates.Step | plan-tracker-back/src/modules/lists/services/shopping-list-templates.service.ts:105-135 | one turn of the merge loop keeps both deduplication maps pointing at items of the list with that product or key, and adds no item or the one fresh id |
| ListTemplates.MergeAll | plan-tracker-back/src/modules/lists/services/shopping-list-templates.service.ts:105-136 | the whole loop keeps the maps sound and only ever adds fresh ids to the table |
| ListTemplates.TargetMatches | plan-tracker-back/src/modules/lists/services/shopping-list-templates.service.ts:107 | a hit names an item of the list with the incoming product, or with its normalised key when it names no product |
| ListTemplates.HitAddsOne | plan-tracker-back/src/modules/lists/services/shopping-list-templates.service.ts:109-114 | a hit raises the matched item's quantity by exactly one and counts as updated; the maps, the sort index and the created count stay |
| ListTemplates.MissCreatesAndIndexes | plan-tracker-back/src/modules/lists/services/shopping-list-templates.service.ts:115-134 | a miss creates the row at the next sort index, advances the index, counts as created, and a later duplicate of the same item now hits it |
| ListTemplates.FreshAfterStep | plan-tracker-back/src/modules/lists/services/shopping-list-templates.service.ts:116-128 | after a step the remaining ids are still new to the table |
| ListTemplates.MergeCounts | plan-tracker-back/src/modules/lists/services/shopping-list-templates.service.ts:94-139 | every incoming item is counted exactly once, as created or updated, and each creation uses one sort index |
| ListTemplates.QuantityOnlyGrowsTransitive | plan-tracker-back/src/modules/lists/services/shopping-list-templates.service.ts:112 | raising quantities composes over several steps |
| ListTemplates.StepTouchesOnlyQuantities | plan-tracker-back/src/modules/lists/services/shopping-list-templates.service.ts:109-114 | a step leaves items of other lists untouched and changes an item of the list only by a larger quantity |
| ListTemplates.MergeTouchesOnlyQuantities | plan-tracker-back/src/modules/lists/services/shopping-list-templates.service.ts:105-136 | the same over the whole loop, so no existing item is re-titled, moved or checked |
| ListTemplates.StepAdds | plan-tracker-back/src/modules/lists/services/shopping-list-templates.service.ts:115-128 | a hit adds no key; a miss adds exactly the fresh id, with an unchecked quantity-one row in the list at the sort index it used |
| ListTemplates.AddedAfterStep | plan-tracker-back/src/modules/lists/services/shopping-list-templates.service.ts:115-128 | the set of added ids grows by at most the one new id per step |
| ListTemplates.MergeAddedCount | plan-tracker-back/src/modules/lists/services/shopping-list-templates.service.ts:115-134 | the items added to the table are exactly as many as the created count |
| ListTemplates.MergeAddedShape | plan-tracker-back/src/modules/lists/services/shopping-list-templates.service.ts:98-128 | every added item is an unchecked row of the list with a distinct sort index from the unchecked group's next index on |
| ListTemplates.AddedShapeWithOneMore | plan-tracker-back/src/modules/lists/services/shopping-list-templates.service.ts:123-128 | one created row at the lower index in front of the later ones keeps the indexes distinct and in range |
| ListTemplates.ProductIndex | plan-tracker-back/src/modules/lists/services/shopping-list-templates.service.ts:80-83 | a product is in the map exactly when some existing row has it, and the mapped id is such a row's id |
| ListTemplates.KeyIndex | plan-tracker-back/src/modules/lists/services/shopping-list-templates.service.ts:80-83 | a key is in the map exactly when some existing row has it, and the mapped id is such a row's id |
| ListTemplates.BuildDeduplicationMaps | plan-tracker-back/src/modules/lists/services/shopping-list-templates.service.ts:74-86 | the loop fills both maps as the two index functions say |
| ListTemplates.DedupMapsSound | plan-tracker-back/src/modules/lists/services/shopping-list-templates.service.ts:42-43 | maps built from the list's own rows satisfy the soundness the merge needs |
| ListTemplates.FirstHitIff | plan-tracker-back/src/modules/lists/services/shopping-list-templates.service.ts:42-107 | before any creation, an incoming item hits exactly when the list already holds an item with its product (or, without a product, its key) |
| ListTemplates.MergeOne | plan-tracker-back/src/modules/lists/services/shopping-list-templates.service.ts:106-135 | the loop body agrees with one step of the merge |
| ListTemplates.ExecuteItemMerge | plan-tracker-back/src/modules/lists/services/shopping-list-templates.service.ts:88-140 | the loop starts at one past the largest unchecked sort index (1 for none) and ends in the state the whole merge defines |
| ListTemplates.BySortIndexIsTotalPreorder | plan-tracker-back/src/modules/lists/services/shopping-list-templates.service.ts:57 | ordering by ascending sort index is total and transitive |
| ListTemplates.SameRows | plan-tracker-back/src/modules/lists/services/shopping-list-templates.service.ts:57 | ordering a template's items keeps exactly its rows |
| ListTemplates.FetchTemplateItems | plan-tracker-back/src/modules/lists/services/shopping-list-templates.service.ts:48-65 | fails BadRequest "No templates found" exactly when no requested template is owned by the caller or shared to one of their families; otherwise returns exactly the items of those templates, grouped by template and each group in sort-index order |
| ListTemplates.TemplateItemsInOrder | plan-tracker-back/src/modules/lists/services/shopping-list-templates.service.ts:57 | one template's items, each once, ordered by sort index |
| ListTemplates.AppendBlock | plan-tracker-back/src/modules/lists/services/shopping-list-templates.service.ts:64 | appending one more template's ordered items keeps the collected rows exact |
| ListTemplates.AppendKeepsGrouped | plan-tracker-back/src/modules/lists/services/shopping-list-templates.service.ts:64 | appending one more template's block keeps the rows grouped by template |
| ListTemplates.CollectedFromFound | plan-tracker-back/src/modules/lists/services/shopping-list-templates.service.ts:49-64 | once every found template is done the rows are exactly the picked items |
| ListTemplates.FetchedCount | plan-tracker-back/src/modules/lists/services/shopping-list-templates.service.ts:64 | the fetched rows are as many as the picked items |
| ListTemplates.ValueColumn | plan-tracker-back/src/modules/lists/services/shopping-list-templates.service.ts:90 | the item values of the fetched rows, in order |
| ListTemplates.NothingMerged | plan-tracker-back/src/modules/lists/services/shopping-list-templates.service.ts:38-40 | merging nothing leaves the table as it was |
| ListTemplates.ListRowsIndex | plan-tracker-back/src/modules/lists/services/shopping-list-templates.service.ts:74-86 | the maps built from the rows of the list hold a product id or a normalized key exactly when some row of the list carries it, and are sound for the merge |
| ListTemplates.MergeIntoList | plan-tracker-back/src/modules/lists/services/shopping-list-templates.service.ts:42-140 | the resulting table and counts are those of the merge loop over the incoming forms of the items, started from maps that index exactly the list's products and keys and from the next unchecked sort index; created + updated equals the number of items; earlier items survive, other lists are untouched, the list's items only gain quantity, and exactly as many new unchecked rows are numbered from the next unchecked index |
| ListTemplates.WriteMerge | plan-tracker-back/src/modules/lists/services/shopping-list-templates.service.ts:42-45 | the shopping table is replaced by the table the merge loop over the items ends in, and the returned counts are that loop's; created + updated equals the number of items and the merge outcome holds |
| ListTemplates.MergeTemplates | plan-tracker-back/src/modules/lists/services/shopping-list-templates.service.ts:37-45 | "No templates found" exactly when nothing is picked; otherwise the fetched rows are exactly the picked items, grouped by template in sort-index order, and the new table and the counts are those of the merge loop over those rows from the list's deduplication maps; (0, 0) and no change when they are empty; the counts add up and the merge outcome holds |
| ListTemplates.ApplyTemplates | plan-tracker-back/src/modules/lists/services/shopping-list-templates.service.ts:21-46 | WRITE access first, then BadRequest "templateIds is required", then "Templates can be applied only to shopping lists", then "No templates found", and success exactly when all four checks pass; a failure changes nothing; on success the new table and counts are those of the merge loop over the fetched rows, which are exactly the picked items, and the counts add up to the picked items |
| Products.ValidateDefaultPrice | plan-tracker-back/src/modules/products/service.ts:16-44 | NONE or no type always passes; any other type needs a currency; EXACT needs a min and a max that is absent or equal to it, its missing-min case being the plain "Forbidden:..." error; RANGE needs both with max >= min, each failure with its own Forbidden message |
| Products.ExactMinErrorReply | plan-tracker-back/src/modules/products/service.ts:28 | the plain "Forbidden:defaultPriceMin is required" error reaches the client as the same reply as a Forbidden service error with that message |
| Products.ExactMinErrorText | plan-tracker-back/src/modules/products/service.ts:28 | the message text is the kind name, a colon and the message |
| Products.ForbiddenLegacyReply | plan-tracker-back/src/modules/products/service.ts:28 | any trimmed, non-empty message behind "Forbidden:" is answered as a Forbidden service error with that message |
| Products.Canonical | plan-tracker-back/src/modules/products/service.ts:127-145 | the stored price: NONE clears currency, min and max; EXACT stores max := min; RANGE stores the given max |
| Products.ValidatedIsCanonical | plan-tracker-back/src/modules/products/service.ts:125-145 | a price that validates is stored in the canonical shape |
| Products.CanonicalRoundTrip | plan-tracker-back/src/modules/products/service.ts:127-145 | a canonical price, read back as input, validates and is stored unchanged |
| Products.UpdatedPrice | plan-tracker-back/src/modules/products/service.ts:175-216 | the stored price fields are rewritten only when a price type is supplied, and then canonically |
| Products.UpdateKeepsPriceCanonical | plan-tracker-back/src/modules/products/service.ts:166-216 | an update that passes validation (or supplies no price field at all) keeps the stored price canonical |
| Products.RequireOwnedProduct | plan-tracker-back/src/modules/products/service.ts:46-53 | NotFound "Product not found" for a missing product, Forbidden "Only owner can modify" for someone else's; otherwise the product |
| Products.AssertOwnedLocations | plan-tracker-back/src/modules/products/service.ts:55-68 | passes exactly when the ids are distinct locations all owned by the caller (so an empty list passes), else Forbidden "Default locations must belong to current user" |
| Products.LinksOf | plan-tracker-back/src/modules/products/service.ts:146-150 | the default-location links are exactly the given locations for that product |
| Products.NewProduct | plan-tracker-back/src/modules/products/service.ts:129-154 | the created product has the caller as owner, the given title and the canonical price |
| Products.NewProductKey | plan-tracker-back/src/modules/products/service.ts:133 | its key is the normalised title, and a normalised key |
| Products.CreateChecks | plan-tracker-back/src/modules/products/service.ts:122-125 | the location check comes first and the price check second; passing them means the price is canonical |
| Products.Create | plan-tracker-back/src/modules/products/service.ts:121-157 | fails exactly when a check fails, changing nothing; otherwise adds exactly the new product and its default-location links |
| Products.UpdatedProduct | plan-tracker-back/src/modules/products/service.ts:190-218 | owner, sort index and creation time stay; the title is replaced when supplied; the key is recomputed only for a non-empty title; the price follows UpdatedPrice |
| Products.ReplacedLinks | plan-tracker-back/src/modules/products/service.ts:178-188 | the product's links become exactly the requested locations; other products' links stay |
| Products.UpdateChecks | plan-tracker-back/src/modules/products/service.ts:160-173 | ownership first, then the locations only when supplied, then the price only when some price field is supplied |
| Products.Update | plan-tracker-back/src/modules/products/service.ts:159-224 | fails exactly when a check fails, changing nothing; otherwise rewrites only that product, and the links only when locations are supplied |
| Products.UpdatePriceStaysCanonical | plan-tracker-back/src/modules/products/service.ts:166-216 | an update that passes the checks keeps a canonical stored price canonical |
| Products.DropProductItems | plan-tracker-back/src/modules/products/service.ts:230 | exactly the shopping items that refer to a removed product are deleted |
| Products.DetachTemplateItems | plan-tracker-back/src/modules/products/service.ts:231-234 | every template item stays, the ones that refer to a removed product losing that reference |
| Products.DropLinks | plan-tracker-back/src/modules/products/service.ts:235 | exactly the removed products' default-location links are deleted |
| Products.DropProductShares | plan-tracker-back/src/modules/products/service.ts:236 | exactly the removed products' family shares are deleted |
| Products.Cascade | plan-tracker-back/src/modules/products/service.ts:229-238 | the five deletions of the removal, in the source's order |
| Products.CascadeLeavesNoDangling | plan-tracker-back/src/modules/products/service.ts:229-238 | after the cascade no shopping item, template item, link or share refers to a removed product, and no template item is lost |
| Products.Remove | plan-tracker-back/src/modules/products/service.ts:226-241 | ownership is required; a failure changes nothing; success performs the cascade for that product |
| Products.RemoveMany | plan-tracker-back/src/modules/products/service.ts:243-264 | Forbidden "Some products not found or not owned by you" unless the ids are distinct products all owned by the caller; a failure changes nothing; success cascades over all of them |
| Products.SharedProduct | plan-tracker-back/src/modules/products/service.ts:266-275 | ownership, then family ADMIN; success adds exactly that share and keeps the others |
| Products.ShareIdempotent | plan-tracker-back/src/modules/products/service.ts:270-274 | sharing again changes nothing (an upsert) |
| Products.Share | plan-tracker-back/src/modules/products/service.ts:266-275 | the store's shares become what SharedProduct gives; a failure changes nothing |
| Products.UnsharedProduct | plan-tracker-back/src/modules/products/service.ts:277-283 | ownership first; a missing share fails as a missing record; success removes exactly that share |
| Products.ShareThenUnshare | plan-tracker-back/src/modules/products/service.ts:266-283 | unsharing after sharing a new pair restores the shares |
| Products.Unshare | plan-tracker-back/src/modules/products/service.ts:277-283 | the store's shares become what UnsharedProduct gives; a failure changes nothing |
| Products.SetSharing | plan-tracker-back/src/modules/products/service.ts:285-308 | family ADMIN is required; the caller's shares for that family become exactly the owned subset of the requested ids, other owners' shares staying |
| Products.ReorderEffect | plan-tracker-back/src/modules/products/service.ts:310-321 | only the caller's listed products change, each to its 0-based position (the last one for a repeated id); nothing else moves |
| Products.ReorderProducts | plan-tracker-back/src/modules/products/service.ts:310-321 | always succeeds and renumbers the products as ReorderEffect describes |
| Locations.RequireOwnedLocation | backend/src/modules/locations/service.ts:15-22 | NotFound "Location not found" for a missing location, Forbidden "Only owner can modify" for someone else's; otherwise the location |
| Locations.NewLocation | backend/src/modules/locations/service.ts:51-60 | the created location has the caller as owner and the given title |
| Locations.NewLocationKey | backend/src/modules/locations/service.ts:56 | its key is the normalised title, and a normalised key |
| Locations.Create | backend/src/modules/locations/service.ts:51-60 | adds exactly the new location |
| Locations.UpdatedLocation | backend/src/modules/locations/service.ts:65-72 | owner, sort index and creation time stay; the title is replaced when supplied; an absent or empty title keeps the key |
| Locations.UpdatedLocationKey | backend/src/modules/locations/service.ts:69 | a non-empty title recomputes the key as its normalisation |
| Locations.UpdateSameTitleIsNoChange | backend/src/modules/locations/service.ts:62-72 | re-sending the current title of a well-formed location changes nothing |
| Locations.Update | backend/src/modules/locations/service.ts:62-73 | ownership is required and a failure changes nothing; success rewrites only that location |
| Locations.DropItemLinks | backend/src/modules/locations/service.ts:79 | exactly the shopping-item links to a removed location are deleted |
| Locations.DropProductLinks | backend/src/modules/locations/service.ts:80 | exactly the product default-location links to a removed location are deleted |
| Locations.DropLocationShares | backend/src/modules/locations/service.ts:81 | exactly the removed locations' family shares are deleted |
| Locations.Cascade | backend/src/modules/locations/service.ts:78-83 | the four deletions of the removal, in the source's order |
| Locations.CascadeLeavesNoDangling | backend/src/modules/locations/service.ts:78-102 | no link or share to a removed location is left, and every other link is kept |
| Locations.Remove | backend/src/modules/locations/service.ts:75-86 | ownership is required; a failure changes nothing; success performs the cascade for that location |
| Locations.RemoveMany | backend/src/modules/locations/service.ts:88-105 | Forbidden "Some locations not found or not owned by you" unless the ids are distinct locations all owned by the caller; a failure changes nothing; success cascades over all of them |
| Locations.SharedLocation | backend/src/modules/locations/service.ts:107-116 | ownership, then family ADMIN; success adds exactly that share and keeps the others |
| Locations.ShareIdempotent | backend/src/modules/locations/service.ts:111-115 | sharing again changes nothing (an upsert) |
| Locations.Share | backend/src/modules/locations/service.ts:107-116 | the store's shares become what SharedLocation gives; a failure changes nothing |
| Locations.UnsharedLocation | backend/src/modules/locations/service.ts:118-124 | ownership first; a missing share fails as a missing record; success removes exactly that share |
| Locations.Unshare | backend/src/modules/locations/service.ts:118-124 | the store's shares become what UnsharedLocation gives; a failure changes nothing |
| Locations.SetSharing | backend/src/modules/locations/service.ts:126-149 | family ADMIN is required; the caller's shares for that family become exactly the owned subset of the requested ids, other owners' shares staying |
| Locations.Reorder | backend/src/modules/locations/service.ts:151-162 | each listed location gets its 0-based position; one that is missing or not the caller's makes the whole transaction fail as a missing record, changing nothing |
| Families.MembersOf | backend/src/modules/families/service.ts:171-173 | a user is in the set exactly when they have a membership row in the family |
| Families.AdminsOf | backend/src/modules/families/service.ts:178-203 | a user is in the set exactly when their role there is ADMIN; every admin is a member |
| Families.JoinedBeforeIsTotalPreorder | backend/src/modules/families/service.ts:23 | ordering memberships by join time is total and transitive |
| Families.FamilyViews | backend/src/modules/families/service.ts:30-34 | one view per membership row, in order, with the family, the caller's role, and the favourite flag set exactly for the favourite family |
| Families.ListMyFamilies | backend/src/modules/families/service.ts:10-35 | every family the caller belongs to appears exactly once, in join order, with the caller's role; a family is marked favourite exactly when it is the one in the caller's settings |
| Families.AtMostOneFavorite | backend/src/modules/families/service.ts:33 | at most one listed family is marked favourite, and none when no favourite is set |
| Families.CreateFamily | backend/src/modules/families/service.ts:59-76 | adds exactly the new family and the creator's membership row, with role ADMIN |
| Families.CreatorIsAdmin | backend/src/modules/families/service.ts:59-76 | in a new family the creator passes the admin check and is its only member and only admin |
| Families.UpdateFamily | backend/src/modules/families/service.ts:78-85 | ADMIN is required ("Not a family member" / "Admin role required"); a missing family fails as a missing record; success changes only the name |
| Families.SetFavoriteFamily | backend/src/modules/families/service.ts:87-101 | a given family needs the caller's membership, else Forbidden and no change; an explicit null clears the favourite and always succeeds; an omitted id keeps an existing favourite and creates a missing row with none; a given family is written as the caller's favourite, and no other user's favourite changes |
| Families.ClearFavoriteOf | backend/src/modules/families/service.ts:155-158 | only the departing user's favourite changes, and only if it was this family |
| Families.ClearFavoritesOf | backend/src/modules/families/service.ts:216-219 | every favourite that pointed at the family is cleared, every other one kept |
| Families.UpdateMemberRole | backend/src/modules/families/service.ts:124-142 | ADMIN is required; a missing target fails NotFound "Member not found"; success changes only the target's role |
| Families.RemoveMember | backend/src/modules/families/service.ts:144-166 | ADMIN is required, then BadRequest "Cannot remove yourself", then NotFound "Member not found"; a failure changes nothing; success drops exactly the target's row and clears only the target's favourite if it was this family |
| Families.RemoveMemberKeepsRemover | backend/src/modules/families/service.ts:144-166 | the admin who removes someone is still an admin of the family afterwards |
| Families.LeaveCheck | backend/src/modules/families/service.ts:168-182 | membership first; then BadRequest "Cannot leave the only-member family"; then an ADMIN with no other admin gets BadRequest "Admin cannot leave without another admin"; it passes exactly in the remaining cases |
| Families.LeaveFamily | backend/src/modules/families/service.ts:168-196 | a failure changes nothing; success drops exactly the caller's row and clears only the caller's favourite if it was this family |
| Families.LeaveKeepsAnAdmin | backend/src/modules/families/service.ts:175-182 | a leave that passes the check leaves the family with a member, and with an admin if it had one |
| Families.Cleaned | backend/src/modules/families/service.ts:215-227 | the family, its invites, members and list, product, location and template shares are gone, every favourite pointing at it is cleared, and everything else is kept |
| Families.CleanedLeavesNoTrace | backend/src/modules/families/service.ts:215-227 | after the cleanup nothing refers to the family |
| Families.DeleteCheck | backend/src/modules/families/service.ts:198-205 | ADMIN is required, then BadRequest "Cannot delete family when multiple admins exist" |
| Families.DeleteOnlyBySoleAdmin | backend/src/modules/families/service.ts:198-205 | the check passes exactly when the caller is the family's only admin |
| Families.DeleteFamily | backend/src/modules/families/service.ts:198-213 | a failed check or a missing family changes nothing; success leaves the tables exactly as the cleanup describes |
| Families.CreateInvite | backend/src/modules/families/service.ts:229-248 | ADMIN is required; success adds exactly one unused invite under the given token |
| Families.AcceptInvite | backend/src/modules/families/service.ts:250-280 | NotFound "Invite not found", BadRequest "Invite already used"; an existing member gets `alreadyMember` and nothing changes; otherwise exactly a READER row is added and the invite is marked used by the caller |
| Families.AcceptedInviteIsSpent | backend/src/modules/families/service.ts:265-276 | after accepting, the invite counts as used and the caller is a member but not an admin |
| Query.OrderBy | backend/src/modules/families/service.ts:11-24 | a database `orderBy` yields the same rows, as a multiset, sorted by the given total preorder (ties in an unspecified order) |
| Query.OrderByKeepsRows | backend/src/modules/families/service.ts:11-24 | a row is in the ordered result exactly when it is in the input |
| Query.OrderByKeepsDistinct | backend/src/modules/families/service.ts:11-24 | ordering introduces no repeated row |
| Query.OrderByKeepsKeysDistinct | backend/src/modules/families/service.ts:11-24 | ordering rows with distinct ids keeps the ids distinct |
| Query.FindMany | backend/src/modules/locations/service.ts:25-28 | a database `findMany` returns every row of the table that matches the filter, each exactly once, and nothing else |
| Query.KeyColumn | backend/src/modules/locations/service.ts:129-134 | the ids of the selected rows, in order |
| SearchItems.Validate | backend/src/modules/lists/services/search-items.service.ts:17-28 | accepts exactly when the trimmed query is non-empty and a FAMILY scope comes with a family id; otherwise BadRequest "query is required" or "familyId is required for scope=family", in that order; the scope defaults to ALL |
| SearchItems.BuildWhere | backend/src/modules/lists/services/search-items.service.ts:31-49 | the list filter matches a list exactly when it is covered: of the requested type, and own and unshared (PERSONAL), shared to the named family of which the caller is a member (FAMILY), or own or shared to any family of the caller (ALL) |
| SearchItems.FindHits | backend/src/modules/lists/services/search-items.service.ts:136-158 | exactly the items of the covered lists whose key contains the normalised query, each once, ordered unchecked first, then by sort index |
| SearchItems.Shaped | backend/src/modules/lists/services/search-items.service.ts:160-168 | one result per row, in order, with the list type and ids of the row; a quantity exactly for shopping results |
| SearchItems.ShapedKeepsOrder | backend/src/modules/lists/services/search-items.service.ts:160-168 | shaping keeps the database order of the hits |
| SearchItems.FindCovered | backend/src/modules/lists/services/search-items.service.ts:51-57 | the ids of exactly the lists the filter covers |
| SearchItems.Collect | backend/src/modules/lists/services/search-items.service.ts:58-133 | no covered list gives no results; TASKS searches only task items, SHOPPING only shopping items, and no type gives the shopping hits followed by the task hits |
| SearchItems.SearchItems | backend/src/modules/lists/services/search-items.service.ts:16-134 | fails exactly when validation fails, with its error; otherwise answers the normalised query over exactly the covered lists |
| SearchItems.ShoppingFirst | backend/src/modules/lists/services/search-items.service.ts:113-133 | in a search over both types no shopping result comes after a task result |
| SearchItems.FamilyScopeNeedsMembership | backend/src/modules/lists/services/search-items.service.ts:37-43 | with FAMILY scope, no list is covered for someone who is not a member of the named family |
| SearchItems.PersonalScopeIsPrivate | backend/src/modules/lists/services/search-items.service.ts:34-36 | a list covered with PERSONAL scope is the caller's own and shared to no family |
| SendList.TallyMaxKnown | plan-tracker-back/src/modules/lists/services/send-list.service.ts:44-49 | a currency's max stays known exactly when none of its priced items is a RANGE without a max |
| SendList.TallyAppend | plan-tracker-back/src/modules/lists/services/send-list.service.ts:34-55 | the totals of two runs of items combine by adding mins and maxes and and-ing the known flags |
| SendList.TallyOrderFree | plan-tracker-back/src/modules/lists/services/send-list.service.ts:34-55 | a currency's totals do not depend on the order of the items |
| SendList.UnpricedAddsNothing | plan-tracker-back/src/modules/lists/services/send-list.service.ts:35 | an item without a currency, or with price type NONE, or in another currency, changes no total |
| SendList.ExactOnly | plan-tracker-back/src/modules/lists/services/send-list.service.ts:50-52 | when every priced item is EXACT, the max is known and equals the min |
| SendList.TallyAbsent | plan-tracker-back/src/modules/lists/services/send-list.service.ts:38 | a currency no item is priced in has the fresh zero totals |
| SendList.CurrenciesListed | plan-tracker-back/src/modules/lists/services/send-list.service.ts:35-37 | a currency occurs among the priced items' currencies exactly when some item is priced in it |
| SendList.Part | plan-tracker-back/src/modules/lists/services/send-list.service.ts:59-63 | a currency's part is never empty |
| SendList.JoinWith | plan-tracker-back/src/modules/lists/services/send-list.service.ts:66 | joining a first non-empty part gives a non-empty text |
| SendList.CurrencyOrder | plan-tracker-back/src/modules/lists/services/send-list.service.ts:54-58 | the currencies in first-seen order, each once, exactly those some item is priced in |
| SendList.Totals | plan-tracker-back/src/modules/lists/services/send-list.service.ts:57-66 | the totals text is empty exactly when no item is priced |
| SendList.AddTo | plan-tracker-back/src/modules/lists/services/send-list.service.ts:38-54 | adding one item: min += (priceMin or 0) * q with q = quantity or 1; EXACT adds priceMin * q to the max, RANGE adds priceMax * q or makes the max unknown |
| SendList.Accumulate | plan-tracker-back/src/modules/lists/services/send-list.service.ts:32-55 | the loop ends with one entry per currency, in first-seen order, each holding that currency's totals over all items |
| SendList.FormatShoppingTotals | plan-tracker-back/src/modules/lists/services/send-list.service.ts:30-67 | the result is the totals text: "min-max CUR" when the max is known and differs, "min CUR" otherwise, joined by " / " |
| SendList.OtherMembers | plan-tracker-back/src/modules/lists/services/send-list.service.ts:100-104 | exactly the family's members other than the sender |
| SendList.Chosen | plan-tracker-back/src/modules/lists/services/send-list.service.ts:93-110 | BadRequest "recipientUserIds must be omitted when allExceptMe=true" exactly for that combination; otherwise every other member, or the requested ids de-duplicated, never the sender |
| SendList.Recipients | plan-tracker-back/src/modules/lists/services/send-list.service.ts:79-139 | Forbidden "List is not shared to this family", then Forbidden "Not a family member"; success never yields an empty set of Telegram ids |
| SendList.RecipientsSound | plan-tracker-back/src/modules/lists/services/send-list.service.ts:110-139 | on success every chosen recipient is another member of the family with a user row, and the ids sent to are exactly their Telegram ids |
| SendList.AllExceptMeReachesEveryone | plan-tracker-back/src/modules/lists/services/send-list.service.ts:95-104 | with allExceptMe, every other member with a Telegram id is sent to |
| SendList.StrangerIsRejected | plan-tracker-back/src/modules/lists/services/send-list.service.ts:116-124 | a requested recipient outside the family fails BadRequest "Some recipients are not family members" |
| SendList.NobodyIsRejected | plan-tracker-back/src/modules/lists/services/send-list.service.ts:110-114 | a request naming only the sender fails BadRequest "No recipients" |
| SendList.NonEmptyListed | plan-tracker-back/src/modules/lists/services/send-list.service.ts:165 | empty location titles are dropped and the others kept |
| SendList.TitlesSeenListed | plan-tracker-back/src/modules/lists/services/send-list.service.ts:162-167 | the collected titles are exactly the non-empty location titles of the items |
| SendList.Pad2 | plan-tracker-back/src/modules/lists/services/send-list.service.ts:192 | padding to two characters |
| SendList.DurationReadsBack | plan-tracker-back/src/modules/lists/services/send-list.service.ts:189-193 | a positive total prints as h:mm with two minute digits, and the printed hours and minutes read back to the total |
| SendList.ShoppingLineShows | plan-tracker-back/src/modules/lists/services/send-list.service.ts:155-159 | a line starts with "[x]" exactly for a checked item, and two lines for the same title and state differ exactly when the quantities do |
| SendList.LocationsListed | plan-tracker-back/src/modules/lists/services/send-list.service.ts:161-170 | the locations line lists each non-empty location title once, in first-seen order |
| SendList.BuildShoppingText | plan-tracker-back/src/modules/lists/services/send-list.service.ts:142-171 | the loop builds the header, one line per item, the optional Locations line and the optional Total line |
| SendList.AppendShoppingLines | plan-tracker-back/src/modules/lists/services/send-list.service.ts:155-159 | the item loop appends exactly the item lines |
| SendList.CollectLocations | plan-tracker-back/src/modules/lists/services/send-list.service.ts:161-167 | the location loop collects the titles in first-seen order without repeats |
| SendList.BuildTaskText | plan-tracker-back/src/modules/lists/services/send-list.service.ts:172-193 | the loop builds the header, one line per task, and the total duration line only when the sum of the set durations is positive |
| SendList.LinkedTitles | plan-tracker-back/src/modules/lists/services/send-list.service.ts:147 | the titles of the locations linked to an item |
| SendList.FetchShopping | plan-tracker-back/src/modules/lists/services/send-list.service.ts:145-153 | the list's shopping items, each exactly once, each with its location titles, in list order |
| SendList.SendListMessage | plan-tracker-back/src/modules/lists/services/send-list.service.ts:72-200 | READ access and the recipient checks decide success and the Telegram ids; on success the text is the shopping message or the task message of the list's rows, each item once and in listing order |
| PriceFormat.Lookup | frontend/src/utils/price.ts:11 | the symbol of the first currency row with that code, and none exactly when no row has it |
| PriceFormat.CurrencySymbol | frontend/src/utils/price.ts:9-12 | nothing for a missing or empty code; the table's symbol for a known code; an unknown code printed as it is |
| PriceFormat.IntToStringHasNoSpace | frontend/src/utils/price.ts:15 | a printed amount holds no space, so the space after it delimits it |
| PriceFormat.SplitAtSpace | frontend/src/utils/price.ts:15 | a text that starts with a space-free word and a space splits back uniquely |
| PriceFormat.FormatPrice | frontend/src/utils/price.ts:14-16 | the printed amount is exactly the text before the first space, and the currency symbol follows that space |
| PriceFormat.FormatPriceInjective | frontend/src/utils/price.ts:14-16 | two amounts printed in the same currency give the same text only if they are equal |
| PriceFormat.SpreadShape | frontend/src/utils/price.ts:22 | a range is the min, a space, the symbol, " ~ " and the printed max |
| PriceFormat.SpreadInjective | frontend/src/utils/price.ts:22 | a printed range gives back both of its bounds |
| PriceFormat.PriceString | frontend/src/utils/price.ts:18-32 | the price text is empty exactly when the price type is NONE, and otherwise starts with the printed lower bound, a missing bound read as 0; RangeStringReadsBack and FormatPriceInjective read the amounts back |
| PriceFormat.RangeStringReadsBack | frontend/src/utils/price.ts:18-32 | two RANGE prices in one currency print alike exactly when their bounds (a missing one read as 0) agree |
| PriceFormat.Qty | frontend/src/utils/price.ts:51 | the quantity or, when it is falsy, 1: a zero quantity counts as one, any other is kept |
| PriceFormat.SumsAppend | frontend/src/utils/price.ts:44-60 | the sums over two runs of items combine by adding and or-ing the priced flag |
| PriceFormat.SumsOrderFree | frontend/src/utils/price.ts:44-60 | the estimate does not depend on the order of the items |
| PriceFormat.SumsHasPrice | frontend/src/utils/price.ts:45-46 | an estimate exists exactly when some item has a price type other than NONE, whatever its currency |
| PriceFormat.OtherCurrenciesAddNothing | frontend/src/utils/price.ts:48-49 | items in other currencies add nothing to the totals |
| PriceFormat.ExactPricesAgree | frontend/src/utils/price.ts:52-55 | without RANGE items in the base currency, min and max totals are equal |
| PriceFormat.CostReadsBack | frontend/src/utils/price.ts:62-65 | a printed estimate gives back its totals |
| PriceFormat.FirstCurrency | frontend/src/utils/price.ts:42 | the first truthy currency, or undefined when there is none |
| PriceFormat.TemplateCostPrinted | frontend/src/utils/price.ts:34-66 | a template estimate is printed exactly when some item is priced |
| PriceFormat.CalculateTemplateCost | frontend/src/utils/price.ts:34-66 | the loop gives the template estimate: null for no items or no priced item, one amount when min = max, else a range |
| PriceFormat.ProductMap | frontend/src/utils/price.ts:79 | the product map has exactly the products' ids |
| PriceFormat.ProductMapLastWins | frontend/src/utils/price.ts:79 | for a repeated id the last product wins |
| PriceFormat.UnknownProductIgnored | frontend/src/utils/price.ts:85-88 | an item without a product, or with one not in the list, changes nothing |
| PriceFormat.CalculateListCost | frontend/src/utils/price.ts:68-110 | the loop gives the list estimate over the items' products in the first product currency |
| PriceFormat.SumListLines | frontend/src/utils/price.ts:84-104 | the loop's running minimum, maximum and priced flag are exactly the totals of the items' known-product lines, taken in item order, in the chosen currency |
| Pluralization.SlavicRule | frontend/src/config/pluralization.ts:9-27 | the form index is at most 3, is 0 exactly for zero, and at most 2 when fewer than four forms are given |
| Pluralization.LastDigitOfLastTwo | frontend/src/config/pluralization.ts:14-16 | the last digit is the last digit of the last two |
| Pluralization.DependsOnLastTwoDigits | frontend/src/config/pluralization.ts:14-26 | for positive counts the form depends only on the last two digits |
| Pluralization.FourForms | frontend/src/config/pluralization.ts:14-26 | with four forms: "one" exactly for a non-teen ending in 1, "few" exactly for a non-teen ending in 2-4, "many" otherwise |
| Pluralization.DocumentedCounts | frontend/src/config/pluralization.ts:3-7 | the documented examples: 1, 21 and 101 are "one"; 2 and 22 "few"; 5, 11 and 111 "many" |
| AppSettings.ResolveTheme | plan-tracker-front/src/bootstrap/appSettings.ts:4-7 | the resolved theme is never AUTO; LIGHT and DARK are kept; AUTO gives LIGHT exactly when Telegram's scheme is LIGHT |
| AppSettings.ResolveIsIdempotent | plan-tracker-front/src/bootstrap/appSettings.ts:13-17 | resolving a resolved theme again changes nothing, whatever the scheme |
| I18n.ToUpper | plan-tracker-front/src/setupI18n.ts:28 | `toUpperCase` on ASCII letters, every other character kept |
| I18n.LocaleNamed | plan-tracker-front/src/setupI18n.ts:29-33 | a supported code names its locale; an unsupported one is not among the codes |
| I18n.LocaleFromLanguageCode | plan-tracker-front/src/setupI18n.ts:25-36 | a missing or empty code gives EN; otherwise the upper-cased code when it is supported, else EN |
| I18n.LocaleCodeRoundTrip | plan-tracker-front/src/setupI18n.ts:25-36 | a locale's own code, in either case, gives back that locale |
| I18n.UnsupportedCodes | plan-tracker-front/src/setupI18n.ts:31-35 | region-qualified or unsupported codes fall back to EN |
| I18n.Translator.constructor | plan-tracker-front/src/setupI18n.ts:38-50 | the translator starts in the given locale |
| I18n.Translator.SetLanguage | plan-tracker-front/src/setupI18n.ts:52-59 | the active locale becomes the requested one when it is available, else EN, and is always an available code |
| SettingsStore.DiffSettings | plan-tracker-front/src/stores/settings.ts:29-36 | the patch holds theme, primary, locale or currency exactly when the new settings differ there from the old, and never the favourite family |
| SettingsStore.DiffThenApply | plan-tracker-front/src/stores/settings.ts:29-36 | applying the difference to the old settings gives the new ones on the four edited fields, the rest of the old settings kept |
| SettingsStore.DiffEmpty | plan-tracker-front/src/stores/settings.ts:29-36 | the difference is empty exactly when the four fields agree, in particular for a snapshot and itself |
| SettingsStore.ApplyPatchKeepsOthers | plan-tracker-front/src/stores/settings.ts:176-179 | a patch changes the fields it carries and keeps all the others |
| SettingsStore.HydratedLocale | plan-tracker-front/src/stores/settings.ts:86-89 | always a supported code: the stored locale when it is supported, EN when it is not, and Telegram's language when nothing is stored |
| SettingsStore.Snapshot | plan-tracker-front/src/stores/settings.ts:84-101 | the snapshot never carries a favourite family and always has a supported locale |
| SettingsStore.Store.constructor | plan-tracker-front/src/stores/settings.ts:41-46 | a new store is not hydrated, not loading, without error, snapshot or draft, and not saving |
| SettingsStore.Store.Hydrate | plan-tracker-front/src/stores/settings.ts:75-124 | nothing happens while hydrated or loading; a loaded user sets both snapshot and draft to the built settings; a failure clears the snapshot, records the error (default "Failed to load settings") and drafts the defaults in Telegram's locale; both end hydrated and not loading |
| SettingsStore.Store.ScheduleSave | plan-tracker-front/src/stores/settings.ts:151-160 | a save is scheduled exactly when there is a snapshot, a draft and a non-empty difference |
| SettingsStore.Store.FlushSave | plan-tracker-front/src/stores/settings.ts:126-149 | the difference is sent exactly when it is non-empty and init data is present; without init data the error "Unable to save settings: missing Telegram initData" is recorded; a saved result replaces snapshot and draft; a failed save records its error and keeps both |
| SettingsStore.Store.SetDraft | plan-tracker-front/src/stores/settings.ts:162-181 | the draft (the EN defaults when there was none) takes the patched fields, nothing else in the store changes, and a save is scheduled exactly when the draft then differs from the snapshot |
| EntityTab.TagsSeenListed | plan-tracker-front/src/composables/useEntityTab.ts:86-90 | the collected tags are exactly the tags of the items |
| EntityTab.StrLeTotal | plan-tracker-front/src/composables/useEntityTab.ts:91 | the default string order of `sort` compares any two strings |
| EntityTab.StrLeTransitive | plan-tracker-front/src/composables/useEntityTab.ts:91 | and is transitive |
| EntityTab.StrLeAntisymmetric | plan-tracker-front/src/composables/useEntityTab.ts:91 | and orders no two different strings both ways |
| EntityTab.StrLeIsTotalPreorder | plan-tracker-front/src/composables/useEntityTab.ts:91 | so it is a total preorder to sort by |
| EntityTab.AllTags | plan-tracker-front/src/composables/useEntityTab.ts:86-92 | every tag of every item, each once, sorted |
| EntityTab.AllTagsStrictlyIncreasing | plan-tracker-front/src/composables/useEntityTab.ts:86-92 | the tag list is strictly increasing |
| EntityTab.Filter | plan-tracker-front/src/composables/useEntityTab.ts:95 | `filter` never lengthens a sequence |
| EntityTab.FilterMembers | plan-tracker-front/src/composables/useEntityTab.ts:95 | `filter` keeps exactly the elements that pass |
| EntityTab.FilterAppend | plan-tracker-front/src/composables/useEntityTab.ts:94-102 | `filter` distributes over concatenation, so it keeps the order |
| EntityTab.FilteredItems | plan-tracker-front/src/composables/useEntityTab.ts:94-102 | an item is shown exactly when it is not hidden and, when tags are selected, carries one of them |
| EntityTab.FilteredItemsKeepOrder | plan-tracker-front/src/composables/useEntityTab.ts:94-102 | the shown items keep the items' order |
| EntityTab.EditingEntity | plan-tracker-front/src/composables/useEntityTab.ts:81-84 | nothing without an editing id; otherwise the item with that id, or nothing when no item has it |
| EntityTab.IndexOf | plan-tracker-front/src/composables/useEntityTab.ts:146 | `indexOf`: -1 exactly for a missing id, else the first position holding it |
| EntityTab.ToggleAbsentTwice | plan-tracker-front/src/composables/useEntityTab.ts:145-152 | selecting an unselected id twice restores the selection |
| EntityTab.TogglePresentTwice | plan-tracker-front/src/composables/useEntityTab.ts:145-152 | deselecting and reselecting a once-selected id restores the selection up to order |
| EntityTab.ToggleFlips | plan-tracker-front/src/composables/useEntityTab.ts:145-152 | toggling flips whether the id is selected and keeps the selection free of repeats |
| EntityTab.Without | plan-tracker-front/src/composables/useEntityTab.ts:161-165 | the hidden ids that are not among the given ones |
| EntityTab.UndoAfterSoftDelete | plan-tracker-front/src/composables/useEntityTab.ts:154-166 | undoing a soft delete removes exactly the ids it hid, restoring the hidden list when they were not hidden before |
| EntityTab.Tab.constructor | plan-tracker-front/src/composables/useEntityTab.ts:71-77 | a new tab has no selection, nothing hidden, no selected tags, a closed drawer, no editing id, and no external call yet |
| EntityTab.Tab.HandleCreate | plan-tracker-front/src/composables/useEntityTab.ts:104-110 | an input that fails validation changes nothing; otherwise the adapter's create is called once and the drawer closes |
| EntityTab.Tab.HandleUpdate | plan-tracker-front/src/composables/useEntityTab.ts:112-116 | an input that fails validation changes nothing; otherwise the adapter's update is called once for that id and the drawer closes |
| EntityTab.Tab.HandleEdit | plan-tracker-front/src/composables/useEntityTab.ts:131-134 | the drawer opens on that id |
| EntityTab.Tab.OpenCreateDrawer | plan-tracker-front/src/composables/useEntityTab.ts:136-139 | the drawer opens without an editing id |
| EntityTab.Tab.HandleSelect | plan-tracker-front/src/composables/useEntityTab.ts:145-152 | the id is added to the selection when absent and its first occurrence removed when present |
| EntityTab.Tab.HandleOpen | plan-tracker-front/src/composables/useEntityTab.ts:118-129 | in selection mode it toggles the id; otherwise it navigates to prefix/id for navigable items, or opens the editor |
| EntityTab.Tab.SelectAll | plan-tracker-front/src/composables/useEntityTab.ts:141-143 | the selection becomes the ids of all items, in order |
| EntityTab.Tab.SoftDelete | plan-tracker-front/src/composables/useEntityTab.ts:154-157 | the ids are appended to the hidden ones and the selection is cleared |
| EntityTab.Tab.HardDelete | plan-tracker-front/src/composables/useEntityTab.ts:159-162 | the adapter's deleteMany is called once and the ids are no longer hidden |
| EntityTab.Tab.UndoDelete | plan-tracker-front/src/composables/useEntityTab.ts:164-166 | the ids are no longer hidden; nothing else changes |
| Lists.AccessibleOrder | backend/src/modules/lists/services/lists.service.ts:101-124 | the unfiltered result has no repeated list and every owned list comes before every list that is only shared |
| Lists.AccessibleScope | backend/src/modules/lists/services/lists.service.ts:101-124 | the unfiltered result holds exactly the owned lists and the lists shared to the caller's families |
| Reorder.Renumber | backend/src/modules/lists/services/lists.service.ts:275-285 | the loop of per-row updates ends in the renumbered table |
| Text.TrimStart | plan-tracker-back/src/plugins/error-handler.ts:27 | a suffix of the input that starts with no white space |
| Text.TrimStartDrops | plan-tracker-back/src/plugins/error-handler.ts:27 | what the start trim drops is white space |
| Text.TrimEnd | plan-tracker-back/src/plugins/error-handler.ts:27 | a prefix of the input that ends with no white space |
| Text.TrimEndDrops | plan-tracker-back/src/plugins/error-handler.ts:27 | what the end trim drops is white space |
| Text.NatToString | plan-tracker-back/src/modules/lists/services/send-list.service.ts:190-192 | a number prints as at least one decimal digit, without a leading zero |
| Text.DigitsRoundTrip | plan-tracker-back/src/modules/lists/services/send-list.service.ts:190-192 | reading back the printed digits gives the number |
| Text.IntToStringInjective | frontend/src/utils/price.ts:14-16 | different integers print differently |
| Text.Includes | backend/src/modules/lists/services/search-items.service.ts:77 | `contains` holds exactly when the needle occurs in the text |

## Left out

- Sending the message to Telegram and the bot's HTTP call: `SendList.SendListMessage` returns the text and the recipients instead.
- Prisma itself: column defaults, transaction isolation and concurrent requests; each operation is one atomic step on `Store.Db`.
- Deletions the database engine would cascade by itself through foreign keys: the model performs only the deletions and updates the service code issues.
- The order in which Prisma returns the included locations of an item; the model keeps them as a set.
- The nondeterministic order of rows that tie on every `orderBy` key: `Query.OrderBy` promises a sorted permutation, not one particular tie order.
- Fresh ids are parameters with a `requires` that they are unused, in place of database-generated ids.
- Unicode: `I18n.ToUpper`/`I18n.ToLower` map ASCII letters only. The letter class of `normalizeKey` is Latin (Basic, Latin-1, Extended-A and B, IPA Extensions) plus Cyrillic, its number class ASCII digits, its pictograph class a set of pictographic ranges, not all of Unicode; strings compare by code point, not by UTF-16 unit.
- NormalizeKey.Lower: lowers by the simple one-character lower-case mapping of those letter blocks; U+0130 (İ), whose `toLowerCase` is the two-character "i̇", is left as it is, and letters outside the modelled blocks are not lowered.
- NaN, infinities and fractional numbers: prices and quantities are whole numbers.
- PriceFormat.Qty: the quantity is a required number, so only 0 falls back to 1; a missing quantity is not modelled.
- Timers: the settings store's debounce, `saveTimer` and the drawer-close timeout of the entity tab; `SettingsStore.Store.ScheduleSave` says only whether a save is scheduled.
- The interleaving of asynchronous calls, and with it the transient `isLoading` and `saving` flags during a request.
- DOM writes (`applyTheme`, `applyPrimary`, `applyLocale`), the update of the user store after a save, the settings store's getters and computed models, and the `onMounted` fetch of the entity tab.
- The router and the entity-tab adapter are recorded as a log of calls rather than performed; an adapter call never fails, so `Tab.HardDelete` always unhides its ids, whereas in the source a rejected `adapter.deleteMany` throws before the filter and leaves them hidden.
- The randomness of `crypto.randomBytes` for invite tokens; the token is a parameter.
- Operations that only read and map rows to DTOs: templates `listPersonal`, `listForFamilySelect` and `toDto`; products and locations `listPersonal`, `listForFamilySelect` and `toDto`; lists `getList`; families `getFamilyOrThrow`, `listMembers` and `getInviteInfo`.
- Out of scope, not modelled: the single-row writes templates `create`, `update`, `updateItem` and `removeItem` (templates/service.ts) and lists `updateList`; only the ownership and access checks in front of them (`Templates.RequireOwnedTemplate`, `ListsAccess.Access`) are modelled.
- Route files, request schemas and the parsing of query strings (the reorder route's `checked === "true"` arrives as a `bool`).
- Pluralization: counts are natural numbers; negative and fractional counts are not modelled.
- AppSettings.ResolveTheme: the `system` mode is the `Auto` constructor.
- Families.SetFavoriteFamily: an empty-string family id is treated as given (membership is checked), whereas the source's truthiness test would skip the check and store it.

- The product columns `note` and `quantityUnit`, which products `create` and `update` copy from the request: they take part in no check or computation, so `Store.Product` leaves them out.