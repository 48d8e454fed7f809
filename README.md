# Many Decks server core in Dafny

This project models the server-side core of Many Decks. The core stores
"decks", the author-owned content packs a party word game is seeded with. It has
three parts:

- **Deck content and its validator** (`server/src/ts/deck.ts`), module `Decks`
  in `deck.dfy`. A deck's content is a name, a list of calls, a list of
  responses and an optional language tag. A call is a list of lines, and each
  line is a list of parts. A part is a plain string, a styled text object or a
  slot. The io-ts codecs become decoding functions from a JSON value datatype
  (`Json.Value`) to these datatypes, and encoders give each typed value back as
  JSON. `validate` decodes a candidate and then scans each call for a slot.
  The scan calls `part.hasOwnProperty("text")` on each object part. An object
  that has its own `hasOwnProperty` member hides that method, and the call
  throws a TypeError. A styled part whose `__proto__` member is `null`, or has
  its own `hasOwnProperty`, hides the method in the same way, because io-ts
  builds that part by assigning each member to a new object. So the scan of a
  call has three outcomes: it finds a slot, it finds none, or it throws. The
  prototype is not part of the part's JSON: the store writes a validated
  deck as its JSON (node-postgres serialises an object parameter with
  `JSON.stringify`), so a stored deck has no such prototype when it is read
  back (`SerialiseDeck`).
- **The error taxonomy** (`server/src/ts/errors.ts`), module `Errors` in
  `errors.dfy`. It has five kinds, each with a constant `type` string and HTTP
  status, plus the `{error: type}` response body.
- **The deck and user store** (`server/src/ts/store.ts`), class
  `DeckStore.Store` in `store.dfy`. The PostgreSQL tables become two map fields
  that the methods reassign: `users` (id to name, Google id, guest flag) and
  `decks` (id to content, author id, version). The serial id sequence is
  `nextId`. Everything the store reaches through foreign code is a constant of
  the class:
  - `applyPatch`: fast-json-patch, as a function with three outcomes;
  - `encode`: the Hashids deck code;
  - `summaries`: the SQL `summaries` view;
  - `initialVersion`: the column default that gives a new deck its version.

  `Store.Valid()` is the class invariant. It says:
  - every deck id is below the id sequence;
  - every stored deck satisfies the slot rule;
  - no stored deck keeps a styled part's prototype, since rows hold JSON;
  - no two users share a Google id;
  - there is at most one guest;
  - the view lists only rows of the decks table.

`patch.dfy` (module `Patch`) states the little the store relies on about JSON
Patch. This is the `test` operation of section 4.6 of RFC 6902, on a path of
one reference token (RFC 6901). It defines `HonoursLeadingTest(apply, member)`:
a patch library that fails a whole patch as a failed test when the patch opens
with a failing test of that one member. The store's properties use it for
`version` only. It is not stated for every member because fast-json-patch
refuses paths through `__proto__` with an error of another kind. Properties
that depend on the library take this as a hypothesis.
`store_properties.dfy` (module `StoreProperties`) holds client sequences over
the store. Each one follows from the contracts of the store's methods.
`wrappers.dfy` and `json.dfy` hold the `Option`/`Result` wrappers and the JSON
value type.

Behaviour of `store.ts` that the model keeps as written:

- `updateDeck` fetches with `getDeck(id, user)`, so the ownership check happens
  at the read (store.ts:247). The `UPDATE` is keyed on `id` alone
  (store.ts:272).
- No code in `store.ts` advances `version`. The `UPDATE` writes only the `deck`
  column, so a deck keeps its version through every update. An increment done
  by SQL that is not shown here (a trigger, for instance) is not part of this
  model.
- `updateDeck` returns the patched in-memory document. Its `author` and
  `version` are whatever the patch left there: a `replace` of `/version`
  changes the returned version but not the stored one. It does not return the
  stored row.
- `applyPatch`'s return value is discarded (store.ts:249), and `updateDeck`
  goes on with the object it passed in. fast-json-patch applies an operation
  on the root path `""` by returning a new document, not by changing its
  argument. So a root `replace` leaves `deck` as it was fetched. The model's
  `applyPatch` stands for the value `deck` holds after the call, not for the
  library's returned document.
- Members that the codecs do not name are not rejected: `t.strict` and
  `t.partial` do not look at them.
- Reads inner-join the users table. The `author` they return is the owner's
  display name, not the owner's id. A deck whose author has no users row cannot
  be read.
- `getSummariesForUser` has no ordering. The model returns the matching view
  rows, each once, in an order it leaves unspecified; the ghost out-parameter
  `ids` names that order.
- A new deck's version is the column default, `initialVersion`.

## Model

| member | source | states |
|---|---|---|
| Decks.LineHasSlot | server/src/ts/deck.ts:71-75 | the slot condition of the inner loop's test: some part of the line is a non-string without a `text` member; the scan agrees with it where no part hides `hasOwnProperty` (ScanWithoutShadowing) |
| Decks.HasSlot | server/src/ts/deck.ts:69-78 | the slot condition of `hasSlot`: some part on some line is a non-string without a `text` member; the scan (ScanCall) agrees with it where no part hides `hasOwnProperty` (ScanWithoutShadowing) |
| Decks.ScanParts | server/src/ts/deck.ts:70-77 | the scan finds nothing iff no part is a slot or throws; otherwise the first part that is one decides: true for a slot, a TypeError for a part with its own `hasOwnProperty` |
| Decks.Flatten | server/src/ts/deck.ts:70-71 | the parts the two loops visit are exactly the parts on the call's lines; their line-then-part order is stated by FlattenAppend and ScanCallByLines |
| Decks.FlattenAppend | server/src/ts/deck.ts:70-71 | the parts of two runs of lines are visited first those of the first run, then those of the second |
| Decks.ScanPartsAppend | server/src/ts/deck.ts:71-75 | scanning two runs of parts in turn: the second is reached only when the first does not stop the scan |
| Decks.ScanCall | server/src/ts/deck.ts:69-78 | `hasSlot(call)` returns false iff no part on any line is a slot or hides `hasOwnProperty`, and it throws only at a part that hides `hasOwnProperty` |
| Decks.ScanCallByLines | server/src/ts/deck.ts:69-78 | the outer loop over lines: the inner loop's outcome on the first line decides unless it found nothing, and then the rest of the lines are scanned; no lines means false |
| Decks.FoundHasSlot | server/src/ts/deck.ts:69-78 | a call whose scan returns true has a slot |
| Decks.ScanWithoutShadowing | server/src/ts/deck.ts:69-78 | where no part hides `hasOwnProperty`, the scan never throws and returns true iff the call has a slot |
| Decks.CheckScans | server/src/ts/deck.ts:86-91 | over the calls' scan outcomes in order: passes iff every one is true; otherwise the first that is not decides the error |
| Decks.CheckCalls | server/src/ts/deck.ts:86-91 | the loop of `validate` passes iff every call's scan returns true; otherwise the first call that does not decides the error: no slot, or the TypeError |
| Decks.SlottedCallsHaveSlots | server/src/ts/deck.ts:86-91 | every call of a deck the loop accepts has a slot |
| Decks.ValidatedCallsHaveSlots | server/src/ts/deck.ts:80-93 | every call of a deck `validate` returns has a slot |
| Decks.HasOwnPropertyMemberRejected | server/src/ts/deck.ts:72 | `{"name":"n","calls":[[[{"hasOwnProperty":0}]]],"responses":[]}` is rejected because the scan throws |
| Decks.FirstPartThrowsRejected | server/src/ts/deck.ts:69-91 | a deck whose first call opens with a part that hides `hasOwnProperty` is rejected with the TypeError, whatever follows |
| Decks.NullProtoStyledRejected | server/src/ts/deck.ts:69-78 | `{"name":"n","calls":[[[{"text":"a","__proto__":null},{}]]],"responses":[]}` is rejected because the scan throws at the styled part before it reaches the slot |
| Decks.NullProtoStyledDecodes | server/src/ts/deck.ts:23-31 | a styled object whose `__proto__` is `null` decodes as a styled part that hides `hasOwnProperty` |
| Decks.ShadowedSlotDecodes | server/src/ts/deck.ts:17-31 | an object whose only member is `hasOwnProperty` decodes as a slot with that member |
| Decks.NoSlotWithoutTextlessObject | server/src/ts/deck.ts:69-78 | a call with no lines, or whose parts are all strings or objects with `text`, has no slot, and its scan does not return true |
| Decks.DecodeStyle | server/src/ts/deck.ts:5-8 | `Style` accepts exactly the strings "Em" and "Strong", and the value decoded encodes back to the input |
| Decks.DecodeTransform | server/src/ts/deck.ts:11-14 | `Transform` accepts exactly "UpperCase" and "Capitalize", and the value decoded encodes back to the input |
| Decks.DecodeString | server/src/ts/deck.ts:38 | `t.string` accepts exactly string values and returns their text |
| Decks.DecodeMember | server/src/ts/deck.ts:17-20 | a `t.partial` member: absent decodes to none, present must decode, and a member that fails to decode rejects the object |
| Decks.DecodePart | server/src/ts/deck.ts:17-31 | `Part` decodes only strings and objects, a string becomes a plain part, an object decodes as styled iff its `text` is a string, a decoded part is a slot iff it came from an object without `text`, and its scan throws iff the object has its own `hasOwnProperty`, or it is styled and its `__proto__` is `null` or has its own `hasOwnProperty`; a styled part holds the object's `text` and decoded `style`, a slot its decoded `transform` and `style`; an object is rejected iff its `style` fails, or it has no string `text` and its `transform` fails |
| Decks.SlotObjectDecodes | server/src/ts/deck.ts:17-31 | an object without a string `text` whose `style` and `transform` decode is a slot, keeping whether it has `text` and `hasOwnProperty` members |
| Decks.DecodeAll | server/src/ts/deck.ts:37-38 | `t.array` succeeds iff every item decodes, keeps the length, and decodes item i to element i |
| Decks.DecodeArray | server/src/ts/deck.ts:37-38 | `t.array` accepts only arrays and decodes them item by item |
| Decks.DecodeEditable | server/src/ts/deck.ts:34-41 | `EditableDeck` decodes iff the value is an object with a string `name`, `calls` decoding as calls, `responses` decoding as strings, and a string `language` if present; the result holds exactly those members |
| Decks.Validate | server/src/ts/deck.ts:80-93 | `validate` throws a decode error iff the codec fails; it returns the decoded deck iff the scan of every call returns true; otherwise it throws what the first call that fails leads to: "Calls must contain at least one slot." or the TypeError |
| Decks.MapAll | server/src/ts/deck.ts:37-38 | an array is written, or stored, item by item in order, keeping the length |
| Decks.SerialiseDeckStores | server/src/ts/store.ts:125-130 | a deck as stored has no styled part with a prototype left, and a deck without one is stored unchanged |
| Decks.FlattenSerialise | server/src/ts/deck.ts:69-78 | storing a call stores its parts in the order the scan visits them |
| Decks.SerialisedScanFinds | server/src/ts/deck.ts:69-78 | a scan that finds a slot still finds it after the parts' prototypes are dropped |
| Decks.SerialisePreservesSlotted | server/src/ts/store.ts:120-130 | a deck `validate` accepted still passes the slot check as it is stored |
| Decks.StyledRoundTrip | server/src/ts/deck.ts:23-28 | every styled part is decoded back from its own JSON, with its own `hasOwnProperty` member but without the prototype that JSON does not carry |
| Decks.SlotRoundTrip | server/src/ts/deck.ts:17-20 | every slot is decoded back from its own JSON, with its `text` and `hasOwnProperty` members |
| Decks.SlotMembers | server/src/ts/deck.ts:17-20 | a slot is written with a `text` and a `hasOwnProperty` member exactly when it had them, and its `style` and `transform` members decode back to its own |
| Decks.PartRoundTrip | server/src/ts/deck.ts:17-31 | every part is decoded back from its own JSON by the `Part` union, as it is stored |
| Decks.AllRoundTrip | server/src/ts/deck.ts:37-38 | `t.array` decodes an item-wise encoding back to the items as stored whenever the item codec does |
| Decks.LineRoundTrip | server/src/ts/deck.ts:37 | every line is decoded back from its own JSON, as it is stored |
| Decks.CallRoundTrip | server/src/ts/deck.ts:37 | every call is decoded back from its own JSON, as it is stored |
| Decks.CallsRoundTrip | server/src/ts/deck.ts:37 | every list of calls is decoded back from its own JSON, as it is stored |
| Decks.ResponsesRoundTrip | server/src/ts/deck.ts:38 | every list of responses is decoded back from its own JSON |
| Decks.EditableRoundTrip | server/src/ts/deck.ts:34-41 | every editable deck is decoded back from its own JSON, as it is stored |
| Decks.ValidateAcceptsExactlySlotted | server/src/ts/deck.ts:86-91 | the JSON of a deck passes `validate`, giving the deck as stored, iff every stored call's scan returns true, and is otherwise rejected with the error of the first stored call that fails; a deck with nothing to drop passes unchanged iff it is slotted |
| Decks.ValidateIdempotent | server/src/ts/deck.ts:80-93 | validating the JSON of the deck `validate` returned succeeds again, with that deck as stored; with the same deck when no styled part had a prototype |
| Decks.EmptyCallsAccepted | server/src/ts/deck.ts:86-92 | a deck with no calls passes the slot check |
| Decks.BadStyleRejectsPart | server/src/ts/deck.ts:5-8 | an object with any `style` other than "Em" or "Strong" is not a part |
| Decks.BadTransformRejectsSlot | server/src/ts/deck.ts:11-31 | a bad `transform` rejects an object without a string `text`, and is ignored when the object has one (the Styled codec accepts it first) |
| Decks.OnlyStringsAndObjectsAreParts | server/src/ts/deck.ts:31 | null, booleans, numbers and arrays are never parts |
| Errors.ErrorKind.Type | server/src/ts/errors.ts:23-66 | each kind's `type` string names that kind and no other |
| Errors.ErrorKind.Status | server/src/ts/errors.ts:23-66 | status is 412 exactly for PatchTestFailed, 404 exactly for DeckNotFound, and 400 exactly for BadDeck, BadPatch and AuthFailure |
| Errors.ErrorKind.Body | server/src/ts/errors.ts:11-20 | `error()` is an object whose only member is `error`, holding the kind's `type` |
| Errors.KindOfTypeInverse | server/src/ts/errors.ts:24-60 | every recognised `type` string is the `type` of the kind it names |
| Errors.TypesDistinct | server/src/ts/errors.ts:24-60 | the five `type` strings are pairwise distinct |
| Errors.StatusNotInjective | server/src/ts/errors.ts:34-61 | BadDeck, BadPatch and AuthFailure are different kinds sharing status 400 |
| Patch.TestMemberFailsIff | server/src/ts/store.ts:249-255 | a `test` of one member of the deck fails exactly when the member is missing or holds another value |
| DeckStore.StoreValidated | server/src/ts/store.ts:270-275 | writing validated content into a row, as `JSON.stringify` writes it, keeps every stored deck slotted and without prototypes |
| DeckStore.EncodeDeck | server/src/ts/store.ts:160-165 | a read deck as JSON is an object whose `author` and `version` members hold the deck's author name and version |
| DeckStore.MetaIgnoredByValidate | server/src/ts/store.ts:262-266 | clearing `author` and `version` does not change what `validate` decides |
| DeckStore.StoredDeckRevalidates | server/src/ts/store.ts:260-269 | a slotted deck, read with author and version and cleared again, validates to its content as stored; a stored deck to its own content |
| DeckStore.CurrentVersionGuardPasses | server/src/ts/store.ts:247-249 | a `test` of `/version` against the deck's own version does not fail |
| DeckStore.CheckPatched | server/src/ts/store.ts:248-269 | a failed `test` is PatchTestFailed; any other patch error, or a patched document `validate` rejects, is BadPatch; otherwise the patched document and the validated content |
| DeckStore.Store.constructor | server/src/ts/store.ts:51-54 | a store over empty tables satisfies the invariant |
| DeckStore.Store.FindOrCreateUser | server/src/ts/store.ts:56-77 | returns the existing user with this Google id and changes nothing, or inserts exactly one user named after the Google name ("New User" without one); decks unchanged, invariant kept |
| DeckStore.Store.FindOrCreateGuestUser | server/src/ts/store.ts:79-96 | returns the existing guest and changes nothing, or inserts exactly one guest named "Guest" |
| DeckStore.Store.ChangeUser | server/src/ts/store.ts:98-107 | renames the user if the id exists, otherwise changes nothing; decks unchanged |
| DeckStore.Store.DeleteUser | server/src/ts/store.ts:109-112 | removes the user row and nothing else |
| DeckStore.Store.Create | server/src/ts/store.ts:114-133 | invalid content is BadDeck with the decks table unchanged; otherwise exactly one new row, with a fresh id, the validated content as `JSON.stringify` writes it, author `user` and the initial version, and that id is returned |
| DeckStore.Store.GetDeck | server/src/ts/store.ts:135-166 | DeckNotFound iff the row is missing, its author has no users row, or (with `user`) its author is not `user`; otherwise the stored content, the owner's display name and the stored version; no state changes |
| DeckStore.Store.GetDecks | server/src/ts/store.ts:168-187 | as many decks as there are readable rows owned by `user`, and exactly the decks those rows read as, each row once and each as `getDeck` would read it |
| DeckStore.Store.GetSummary | server/src/ts/store.ts:189-210 | the view's summary for `id`, or DeckNotFound iff the view has no row for it, which is the case for every id without a decks row |
| DeckStore.Store.GetSummariesForUser | server/src/ts/store.ts:212-239 | as many entries as there are view rows owned by `user`, and exactly the code-and-summary pairs of those rows, each row once, with the code being the encoded id |
| DeckStore.DistinctCount | server/src/ts/store.ts:178-186 | a result list built from rows without repeats is as long as the set of rows selected |
| DeckStore.Store.UpdateDeck | server/src/ts/store.ts:241-277 | DeckNotFound when `user` cannot read the deck; otherwise the patch outcome mapped as in CheckPatched, with nothing written on any failure; on success only the `deck` column of row `id` changes, to the validated content as `JSON.stringify` writes it, author and version stay, the patched document is returned, and a patch opening with a failing `test` of `/version` gives PatchTestFailed when the library honours that test |
| DeckStore.Store.DeleteDeck | server/src/ts/store.ts:279-291 | removes row `id` iff `user` owns it, otherwise DeckNotFound with nothing removed |
| StoreProperties.CreateThenGet | server/src/ts/store.ts:114-166 | after a successful create, reading the new id returns the validated content as stored, the owner's name and the initial version |
| StoreProperties.BadDeckWritesNothing | server/src/ts/store.ts:120-124 | creating invalid content is BadDeck and leaves both tables unchanged |
| StoreProperties.NonOwnerDeleteIsNotFound | server/src/ts/store.ts:279-291 | a delete by a non-owner is DeckNotFound, and the owner still reads the same deck afterwards |
| StoreProperties.DeleteThenGet | server/src/ts/store.ts:135-210 | after the owner deletes a deck, both the read and the summary are DeckNotFound |
| StoreProperties.StaleVersionGuardRejected | server/src/ts/store.ts:247-259 | a patch opening with a `test` of a stale version is PatchTestFailed and writes nothing, given a library that honours a `test` of `/version` |
| StoreProperties.VersionGuardSurvivesUpdate | server/src/ts/store.ts:270-276 | after a successful update the version read back is the old one, so a `test` on the old version still passes |
| StoreProperties.UpdatedContentRevalidates | server/src/ts/store.ts:260-275 | the content a successful update stores passes `validate` again, unchanged |
| StoreProperties.FindOrCreateUserTwice | server/src/ts/store.ts:56-77 | two calls with the same Google id return the same user |
| StoreProperties.FindOrCreateGuestUserTwice | server/src/ts/store.ts:79-96 | two calls return the same guest |

## Left out

- PostgreSQL, the pool, schema creation, migrations and the issuer bootstrap (`init`, store.ts:16-45), and `withClient`: I/O plumbing. The tables are maps and every operation is one sequential step.
- Concurrency: the model runs one operation at a time. So the difference between the owner-filtered fetch and the id-keyed `UPDATE` only matters under interleavings, and the model does not capture it.
- The SQL of the `summaries` view is not shown. The view is an abstract function of the two tables, and the model assumes only that it lists rows of the decks table. How counts, language or a public flag are derived is not modelled.
- Browse, search, ranking, pagination and the public flag: no code in the core implements them.
- fast-json-patch is a foreign call: its outcome is an abstract function. Its value stands for what the fetched `deck` object holds after the call. The model does not capture that the call changes that object in place, operation by operation; only the final value matters to `updateDeck`. Only a `test` of `/version` is described, and only as a hypothesis on the library.
- server/src/ts/deck/code.ts (Hashids) is not part of this model. `encode` is a parameter of the store, and no decode contract is stated.
- uuid generation (server/src/ts/user.ts) is not part of this model. The fresh id is a parameter of `FindOrCreateUser` and `FindOrCreateGuestUser`, and those methods require that the id is not already taken.
- Foreign-key behaviour: the model does not capture what the database does on `deleteUser` while the user still owns decks, or on `create` with an author who has no users row. `DeleteUser` removes only the users row, and the reads' inner join then hides that user's decks.
- Error messages: the text of each `Error` and the validation report are not modelled. The callers discard them, and the model keeps only the kind of failure (`Rejection`, `ErrorKind`).
- JSON numbers are integers in the model. `t.Int` and fractional numbers are not distinguished.
- Members the codecs do not name are dropped by the typed model. Of the members `hasSlot` depends on, only whether an own `text` or `hasOwnProperty` member is present is kept, and the encoders write such a member back as `null`. So a stored `{"text": 5}` reads back as `{"text": null}`, which a later patch `test` can tell apart. io-ts would carry all members through in the decoded object. A styled part's `__proto__` is kept only as whether its prototype hides `hasOwnProperty`; no member is written for it, and storage drops it.
- Decks.Validate: io-ts may itself throw while decoding an object with its own `hasOwnProperty` member, or with a `__proto__` member that is `null` or has its own `hasOwnProperty`. When it merges the results of an intersection codec (`Styled`, `EditableDeck`), it assigns each member to the merged object, so `__proto__` replaces that object's prototype, and it calls the merged object's `hasOwnProperty` for each later member. The model's JSON objects keep no member order, so this is not modelled. `Validate` decides as if that merge succeeded. So it accepts a deck object with such a member followed by other members, and a deck whose slot is followed by such a styled part, both of which the source may reject.
- Decks.ValidateIdempotent: validating the JSON of a validated deck gives the deck as stored, which differs from the deck itself when a styled part's `__proto__` installed a prototype, since that JSON does not carry it.
- Decks.DecodePart: a `__proto__` member of a styled object is modelled only through its effect on the scan (the part hides `hasOwnProperty`); the other prototypes it can install, and a `__proto__` member of the deck object itself, are not modelled, for the member-order reason above.
- server/src/ts/index.ts (routing, authentication, the error middleware and its 500 fallback), the user and auth modules, and all client code: transport, identity and UI glue outside the core.
- Decks.BadTransformRejectsSlot: a bad `transform` rejects the part only when the object has no string `text`. With a string `text`, the `Styled` codec accepts the object first and never looks at `transform`.
- DeckStore.Store.GetDecks and DeckStore.Store.GetSummariesForUser: the order of the result is not specified, because the queries have no `ORDER BY`.
