/**
 * The deck and user store of server/src/ts/store.ts, over abstract tables.
 *
 * The users and decks tables are maps that the methods reassign; the decks
 * id sequence is `nextId`. What the store reaches through foreign code is a
 * constant of the class: fast-json-patch's `applyPatch`, Hashids' `encode`,
 * the `summaries` view (its SQL is not part of this model) and the column
 * default that gives a new deck its `version`.
 */
module DeckStore {
  import opened Wrappers
  import opened Json
  import opened Decks
  import opened Errors
  import Patch

  /** A uuid. */
  type UserId = string

  /** The serial id of a decks row. */
  type DeckId = nat

  /** The name a Google user gets when Google gives none. */
  const DefaultUserName: string := "New User"

  /** The name of the guest user. */
  const GuestUserName: string := "Guest"

  datatype UserRow = UserRow(name: string, googleId: Option<string>, isGuest: bool)

  datatype DeckRow = DeckRow(deck: EditableDeck, author: UserId, version: int)

  /** A row of the summaries view: the owner's id and the summary columns. */
  datatype SummaryRow = SummaryRow(authorId: UserId, summary: Summary)

  /** What the user lookups return (server/src/ts/user.ts). */
  datatype User = User(id: UserId, name: string)

  /** The summaries view as a function of the two tables. */
  type SummaryView = (map<UserId, UserRow>, map<DeckId, DeckRow>) -> map<DeckId, SummaryRow>

  /** The view shows only rows of the decks table. */
  ghost predicate ViewOfDecks(view: SummaryView)
  {
    forall users, decks :: view(users, decks).Keys <= decks.Keys
  }

  /** Every stored deck passed `validate`, so each of its calls has a slot. */
  predicate AllSlotted(decks: map<DeckId, DeckRow>)
  {
    forall id :: id in decks ==> Slotted(decks[id].deck)
  }

  /**
   * Every stored deck is as `JSON.stringify` wrote it: no styled part keeps
   * a prototype.
   */
  predicate AllSerialised(decks: map<DeckId, DeckRow>)
  {
    forall id :: id in decks ==> Serialised(decks[id].deck)
  }

  /**
   * Writing validated content into a row, as `JSON.stringify` writes it,
   * keeps every stored deck slotted and serialised.
   */
  lemma StoreValidated(decks: map<DeckId, DeckRow>, id: DeckId, row: DeckRow, content: EditableDeck)
    requires AllSlotted(decks) && AllSerialised(decks) && Slotted(content)
    ensures AllSlotted(decks[id := row.(deck := SerialiseDeck(content))])
    ensures AllSerialised(decks[id := row.(deck := SerialiseDeck(content))])
  {
    SerialisePreservesSlotted(content);
    SerialiseDeckStores(content);
  }

  /** A list without repeats has as many elements as the set it lists. */
  lemma {:induction false} DistinctCount<K>(ids: seq<K>, keys: set<K>)
    requires forall i, j :: 0 <= i < j < |ids| ==> ids[i] != ids[j]
    requires forall k :: k in ids <==> k in keys
    ensures |keys| == |ids|
  {
    if ids != [] {
      assert forall k :: k in ids[1..] <==> k in keys - {ids[0]} by {
        forall k | k in ids[1..] ensures k != ids[0] {
          var j :| 0 <= j < |ids[1..]| && ids[1..][j] == k;
          assert ids[j + 1] == k;
        }
      }
      DistinctCount(ids[1..], keys - {ids[0]});
    }
  }

  /** Find-or-create never gives two users one Google id. */
  predicate GoogleIdsUnique(users: map<UserId, UserRow>)
  {
    forall a, b :: a in users && b in users && users[a].googleId.Some? && users[a].googleId == users[b].googleId ==> a == b
  }

  /** Find-or-create never makes a second guest. */
  predicate AtMostOneGuest(users: map<UserId, UserRow>)
  {
    forall a, b :: a in users && b in users && users[a].isGuest && users[b].isGuest ==> a == b
  }

  ghost predicate HasGoogleUser(users: map<UserId, UserRow>, googleId: string)
  {
    exists id :: id in users && users[id].googleId == Some(googleId)
  }

  ghost predicate HasGuest(users: map<UserId, UserRow>)
  {
    exists id :: id in users && users[id].isGuest
  }

  /** `{...row.deck, author: <users.name>, version: row.version}`. */
  function WithMeta(row: DeckRow, authorName: string): Deck
  {
    Deck(row.deck, authorName, row.version)
  }

  /** A deck as the JSON document a patch is applied to. */
  function EncodeDeck(d: Deck): (v: Value)
    ensures v.JObj?
    ensures "author" in v.fields && v.fields["author"] == JStr(d.author)
    ensures "version" in v.fields && v.fields["version"] == JNum(d.version)
  {
    JObj(EditableMembers(d.content) + map["author" := JStr(d.author), "version" := JNum(d.version)])
  }

  /**
   * `{...deck, author: undefined, version: undefined}` as the EditableDeck
   * codec sees it: without the two members.
   */
  function WithoutMeta(v: Value): Value
  {
    if v.JObj? then JObj(v.fields - {"author", "version"}) else v
  }

  /** Clearing `author` and `version` does not change what `validate` says. */
  lemma MetaIgnoredByValidate(v: Value)
    ensures Validate(WithoutMeta(v)) == Validate(v)
  {
    if v.JObj? {
      var m, m' := v.fields, WithoutMeta(v).fields;
      forall k | k in {"name", "calls", "responses", "language"}
        ensures (k in m <==> k in m') && (k in m ==> m[k] == m'[k])
      {
      }
      assert DecodeEditable(WithoutMeta(v)) == DecodeEditable(v);
    }
  }

  /**
   * A slotted deck, with author and version added and cleared again,
   * validates to its content as stored; a stored deck to itself.
   */
  lemma StoredDeckRevalidates(d: Deck)
    requires Slotted(d.content)
    ensures Validate(WithoutMeta(EncodeDeck(d))) == Ok(SerialiseDeck(d.content))
    ensures Serialised(d.content) ==> Validate(WithoutMeta(EncodeDeck(d))) == Ok(d.content)
  {
    var m := EditableMembers(d.content);
    var meta := map["author" := JStr(d.author), "version" := JNum(d.version)];
    assert m.Keys <= {"name", "calls", "responses", "language"};
    assert (m + meta) - {"author", "version"} == m;
    SerialisePreservesSlotted(d.content);
    SerialiseDeckStores(d.content);
    ValidateAcceptsExactlySlotted(d.content);
  }

  /** A test of `/version` against the deck's own version passes. */
  lemma CurrentVersionGuardPasses(d: Deck)
    ensures !Patch.FailingMemberTest(EncodeDeck(d), Patch.TestMember("version", JNum(d.version)))
  {
    Patch.TestMemberFailsIff(EncodeDeck(d), "version", JNum(d.version));
  }

  /**
   * The two `catch` blocks of `updateDeck`: a failed `test` is
   * PatchTestFailed, any other patch error is BadPatch, and a patched
   * document that `validate` rejects (with `author` and `version` cleared)
   * is BadPatch as well; otherwise the patched document and the validated
   * content to write.
   */
  function CheckPatched(applied: Patch.Outcome): (r: Result<(Value, EditableDeck), ErrorKind>)
    ensures r == Err(PatchTestFailed) <==> applied.TestFailed?
    ensures r == Err(BadPatch) <==> applied.OtherError? || (applied.Applied? && Validate(applied.document).Err?)
    ensures r.Err? ==> r.error == PatchTestFailed || r.error == BadPatch
    ensures r.Ok? ==>
      && applied == Patch.Applied(r.value.0)
      && Validate(r.value.0) == Ok(r.value.1)
      && Slotted(r.value.1)
  {
    match applied
    case TestFailed => Err(PatchTestFailed)
    case OtherError => Err(BadPatch)
    case Applied(patched) =>
      MetaIgnoredByValidate(patched);
      match Validate(WithoutMeta(patched))
      case Err(_) => Err(BadPatch)
      case Ok(content) => Ok((patched, content))
  }

  class Store {
    var users: map<UserId, UserRow>
    var decks: map<DeckId, DeckRow>
    var nextId: DeckId
    const initialVersion: int
    const applyPatch: (Value, seq<Value>) -> Patch.Outcome
    const encode: DeckId -> string
    const summaries: SummaryView

    ghost predicate Valid()
      reads this
    {
      && (forall id :: id in decks ==> id < nextId)
      && AllSlotted(decks)
      && AllSerialised(decks)
      && GoogleIdsUnique(users)
      && AtMostOneGuest(users)
      && ViewOfDecks(summaries)
    }

    /** A store over empty tables. */
    constructor (initialVersion: int, applyPatch: (Value, seq<Value>) -> Patch.Outcome,
                 encode: DeckId -> string, summaries: SummaryView)
      requires ViewOfDecks(summaries)
      ensures Valid()
      ensures users == map[] && decks == map[]
      ensures this.initialVersion == initialVersion && this.applyPatch == applyPatch
      ensures this.encode == encode && this.summaries == summaries
    {
      this.initialVersion := initialVersion;
      this.applyPatch := applyPatch;
      this.encode := encode;
      this.summaries := summaries;
      users := map[];
      decks := map[];
      nextId := 1;
    }

    /** Row `id` exists and its author is a user: the inner join of the deck reads. */
    predicate Joined(id: DeckId)
      reads this
    {
      id in decks && decks[id].author in users
    }

    /** The rows `getDeck(id, user)` selects: joined, and owned by `user` when one is given. */
    predicate Visible(id: DeckId, user: Option<UserId>)
      reads this
    {
      Joined(id) && (user.Some? ==> decks[id].author == user.value)
    }

    /** The rows `DELETE ... WHERE id = $1 AND author = $2` matches. */
    predicate Owns(user: UserId, id: DeckId)
      reads this
    {
      id in decks && decks[id].author == user
    }

    /** The deck a read of row `id` builds. */
    function DeckAt(id: DeckId): Deck
      reads this
      requires Joined(id)
    {
      WithMeta(decks[id], users[decks[id].author].name)
    }

    function SummaryTable(): map<DeckId, SummaryRow>
      reads this
    {
      summaries(users, decks)
    }

    /** The rows `getDecks(user)` selects. */
    function OwnedRows(user: UserId): set<DeckId>
      reads this
    {
      set id | id in decks && Visible(id, Some(user))
    }

    /** The decks those rows read as. */
    function OwnedDecks(user: UserId): set<Deck>
      reads this
    {
      set id | id in decks && Visible(id, Some(user)) :: DeckAt(id)
    }

    /** The view rows `getSummariesForUser(user)` selects. */
    function OwnedSummaryRows(user: UserId): set<DeckId>
      reads this
    {
      var view := SummaryTable();
      set id | id in view && view[id].authorId == user
    }

    /** The codes and summaries of those rows. */
    function OwnedSummaries(user: UserId): set<SummaryAndCode>
      reads this
    {
      var view := SummaryTable();
      set id | id in view && view[id].authorId == user :: SummaryAndCode(encode(id), view[id].summary)
    }

    /**
     * `findOrCreateUser`: the user with this Google id, or a new user named
     * after the Google name ("New User" without one). `freshId` is the uuid
     * the insert would use.
     */
    method FindOrCreateUser(googleId: string, googleName: Option<string>, freshId: UserId) returns (u: User)
      requires Valid()
      requires freshId !in users
      modifies this
      ensures Valid()
      ensures decks == old(decks) && nextId == old(nextId)
      ensures u.id in users && users[u.id].googleId == Some(googleId) && users[u.id].name == u.name
      ensures old(HasGoogleUser(users, googleId)) ==> users == old(users)
      ensures !old(HasGoogleUser(users, googleId)) ==>
        && u == User(freshId, if googleName.Some? then googleName.value else DefaultUserName)
        && users == old(users)[freshId := UserRow(u.name, Some(googleId), false)]
    {
      if id :| id in users && users[id].googleId == Some(googleId) {
        u := User(id, users[id].name);
      } else {
        var name := if googleName.None? then DefaultUserName else googleName.value;
        users := users[freshId := UserRow(name, Some(googleId), false)];
        u := User(freshId, name);
      }
    }

    /** `findOrCreateGuestUser`: the guest user, or a new one named "Guest". */
    method FindOrCreateGuestUser(freshId: UserId) returns (u: User)
      requires Valid()
      requires freshId !in users
      modifies this
      ensures Valid()
      ensures decks == old(decks) && nextId == old(nextId)
      ensures u.id in users && users[u.id].isGuest && users[u.id].name == u.name
      ensures old(HasGuest(users)) ==> users == old(users)
      ensures !old(HasGuest(users)) ==>
        && u == User(freshId, GuestUserName)
        && users == old(users)[freshId := UserRow(GuestUserName, None, true)]
    {
      if id :| id in users && users[id].isGuest {
        u := User(id, users[id].name);
      } else {
        users := users[freshId := UserRow(GuestUserName, None, true)];
        u := User(freshId, GuestUserName);
      }
    }

    /** `changeUser`: renames the user; an unknown id updates no row. */
    method ChangeUser(user: UserId, name: string)
      requires Valid()
      modifies this
      ensures Valid()
      ensures decks == old(decks) && nextId == old(nextId)
      ensures users == if user in old(users) then old(users)[user := old(users)[user].(name := name)] else old(users)
    {
      if user in users {
        users := users[user := users[user].(name := name)];
      }
    }

    /** `deleteUser`: removes the users row only. */
    method DeleteUser(user: UserId)
      requires Valid()
      modifies this
      ensures Valid()
      ensures decks == old(decks) && nextId == old(nextId)
      ensures users == old(users) - {user}
    {
      users := users - {user};
    }

    /**
     * `create`: BadDeck, with nothing inserted, when `validate` throws;
     * otherwise one new row holding the validated deck as `JSON.stringify`
     * writes it, owned by `user`.
     */
    method Create(candidate: Value, user: UserId) returns (r: Result<DeckId, ErrorKind>)
      requires Valid()
      modifies this
      ensures Valid()
      ensures users == old(users)
      ensures Validate(candidate).Err? ==> r == Err(BadDeck) && decks == old(decks)
      ensures Validate(candidate).Ok? ==>
        && r.Ok? && r.value !in old(decks)
        && decks == old(decks)[r.value := DeckRow(SerialiseDeck(Validate(candidate).value), user, initialVersion)]
    {
      match Validate(candidate)
      case Err(_) =>
        r := Err(BadDeck);
      case Ok(deck) =>
        var id := nextId;
        nextId := nextId + 1;
        var row := DeckRow(SerialiseDeck(deck), user, initialVersion);
        StoreValidated(decks, id, row, deck);
        decks := decks[id := row];
        r := Ok(id);
    }

    /**
     * `getDeck(id)` and `getDeck(id, user)`: DeckNotFound unless the row
     * exists, its author is a user, and (with `user`) the author is `user`;
     * otherwise the stored deck with the author's display name and the
     * stored version.
     */
    method GetDeck(id: DeckId, user: Option<UserId>) returns (r: Result<Deck, ErrorKind>)
      ensures r.Err? <==> !Visible(id, user)
      ensures r.Err? ==> r.error == DeckNotFound
      ensures r.Ok? ==>
        && r.value.content == decks[id].deck
        && r.value.author == users[decks[id].author].name
        && r.value.version == decks[id].version
    {
      if Visible(id, user) {
        r := Ok(DeckAt(id));
      } else {
        r := Err(DeckNotFound);
      }
    }

    /**
     * `getDecks`: one deck per joined row owned by `user`, each row once, in
     * the order the query returns them (`ids`).
     */
    method GetDecks(user: UserId) returns (r: seq<Deck>, ghost ids: seq<DeckId>)
      ensures forall i, j :: 0 <= i < j < |ids| ==> ids[i] != ids[j]
      ensures forall id :: id in ids <==> Visible(id, Some(user))
      ensures |r| == |ids|
      ensures forall i :: 0 <= i < |ids| ==> Joined(ids[i]) && r[i] == DeckAt(ids[i])
      ensures |r| == |OwnedRows(user)|
      ensures forall d :: d in r <==> d in OwnedDecks(user)
    {
      var rows := set id | id in decks && Visible(id, Some(user));
      r, ids := [], [];
      while rows != {}
        invariant forall i, j :: 0 <= i < j < |ids| ==> ids[i] != ids[j]
        invariant forall id :: id in ids ==> id !in rows
        invariant forall id :: id in ids || id in rows <==> Visible(id, Some(user))
        invariant |r| == |ids|
        invariant forall i :: 0 <= i < |ids| ==> Joined(ids[i]) && r[i] == DeckAt(ids[i])
        decreases rows
      {
        var id :| id in rows;
        r := r + [DeckAt(id)];
        ids := ids + [id];
        rows := rows - {id};
      }
      DistinctCount(ids, OwnedRows(user));
      forall d ensures d in r <==> d in OwnedDecks(user) {
        if d in r {
          var i :| 0 <= i < |r| && r[i] == d;
          assert ids[i] in decks && Visible(ids[i], Some(user));
        }
        if d in OwnedDecks(user) {
          var id :| id in decks && Visible(id, Some(user)) && d == DeckAt(id);
          var j :| 0 <= j < |ids| && ids[j] == id;
          assert r[j] == d;
        }
      }
    }

    /** `getSummary`: the view's row for `id`, or DeckNotFound. */
    method GetSummary(id: DeckId) returns (r: Result<Summary, ErrorKind>)
      ensures r.Ok? <==> id in SummaryTable()
      ensures r.Ok? ==> r.value == SummaryTable()[id].summary
      ensures r.Err? ==> r.error == DeckNotFound
      ensures ViewOfDecks(summaries) && r.Ok? ==> id in decks
    {
      var view := summaries(users, decks);
      if id in view {
        r := Ok(view[id].summary);
      } else {
        r := Err(DeckNotFound);
      }
    }

    /**
     * `getSummariesForUser`: one code and summary per view row whose owner is
     * `user`, each row once, in the order the query returns them (`ids`).
     */
    method GetSummariesForUser(user: UserId) returns (r: seq<SummaryAndCode>, ghost ids: seq<DeckId>)
      ensures forall i, j :: 0 <= i < j < |ids| ==> ids[i] != ids[j]
      ensures forall id :: id in ids <==> id in SummaryTable() && SummaryTable()[id].authorId == user
      ensures |r| == |ids|
      ensures forall i :: 0 <= i < |ids| ==>
        ids[i] in SummaryTable() && r[i] == SummaryAndCode(encode(ids[i]), SummaryTable()[ids[i]].summary)
      ensures |r| == |OwnedSummaryRows(user)|
      ensures forall c :: c in r <==> c in OwnedSummaries(user)
    {
      var view := summaries(users, decks);
      var rows := set id | id in view && view[id].authorId == user;
      r, ids := [], [];
      while rows != {}
        invariant forall i, j :: 0 <= i < j < |ids| ==> ids[i] != ids[j]
        invariant forall id :: id in ids ==> id !in rows
        invariant forall id :: id in ids || id in rows <==> id in view && view[id].authorId == user
        invariant |r| == |ids|
        invariant forall i :: 0 <= i < |ids| ==>
          ids[i] in view && r[i] == SummaryAndCode(encode(ids[i]), view[ids[i]].summary)
        decreases rows
      {
        var id :| id in rows;
        r := r + [SummaryAndCode(encode(id), view[id].summary)];
        ids := ids + [id];
        rows := rows - {id};
      }
      DistinctCount(ids, OwnedSummaryRows(user));
      forall c ensures c in r <==> c in OwnedSummaries(user) {
        if c in r {
          var i :| 0 <= i < |r| && r[i] == c;
          assert ids[i] in view && view[ids[i]].authorId == user;
        }
        if c in OwnedSummaries(user) {
          var id :| id in view && view[id].authorId == user && c == SummaryAndCode(encode(id), view[id].summary);
          var j :| 0 <= j < |ids| && ids[j] == id;
          assert r[j] == c;
        }
      }
    }

    /**
     * `updateDeck`: fetch the deck owned by `user` (DeckNotFound otherwise),
     * apply the patch to it, map a failed `test` to PatchTestFailed and any
     * other patch error to BadPatch, validate the result with `author` and
     * `version` cleared (BadPatch if it throws), then write the validated
     * content, as `JSON.stringify` writes it, to row `id` and return the
     * patched document, with whatever
     * `author` and `version` the patch left in it. Only the `deck` column is
     * written; the row's `author` and `version` stay as they were.
     */
    method UpdateDeck(id: DeckId, user: UserId, patch: seq<Value>) returns (r: Result<Value, ErrorKind>)
      requires Valid()
      modifies this
      ensures Valid()
      ensures users == old(users) && nextId == old(nextId)
      ensures r.Err? ==> decks == old(decks)
      ensures r.Ok? ==>
        && old(Visible(id, Some(user))) && id in decks
        && decks[id].author == old(decks)[id].author
        && decks[id].version == old(decks)[id].version
      ensures !old(Visible(id, Some(user))) ==> r == Err(DeckNotFound)
      ensures old(Visible(id, Some(user))) ==>
        var checked := CheckPatched(applyPatch(EncodeDeck(old(DeckAt(id))), patch));
        && (checked.Err? ==> r == Err(checked.error))
        && (checked.Ok? ==>
              && r == Ok(checked.value.0)
              && decks == old(decks)[id := old(decks)[id].(deck := SerialiseDeck(checked.value.1))])
      ensures
        && Patch.HonoursLeadingTest(applyPatch, "version")
        && old(Visible(id, Some(user)))
        && |patch| > 0
        && Patch.IsMemberTest(patch[0], "version")
        && Patch.FailingMemberTest(EncodeDeck(old(DeckAt(id))), patch[0])
        ==> r == Err(PatchTestFailed)
    {
      var fetched := GetDeck(id, Some(user));
      if fetched.Err? {
        return Err(DeckNotFound);
      }
      var checked := CheckPatched(applyPatch(EncodeDeck(fetched.value), patch));
      if checked.Err? {
        return Err(checked.error);
      }
      var (patched, updated) := checked.value;
      StoreValidated(decks, id, decks[id], updated);
      // UPDATE ... WHERE id = $2: keyed on the id alone
      decks := decks[id := decks[id].(deck := SerialiseDeck(updated))];
      r := Ok(patched);
    }

    /** `deleteDeck`: removes row `id` if `user` owns it, DeckNotFound otherwise. */
    method DeleteDeck(id: DeckId, user: UserId) returns (r: Result<(), ErrorKind>)
      requires Valid()
      modifies this
      ensures Valid()
      ensures users == old(users) && nextId == old(nextId)
      ensures old(Owns(user, id)) ==> r == Ok(()) && decks == old(decks) - {id}
      ensures !old(Owns(user, id)) ==> r == Err(DeckNotFound) && decks == old(decks)
    {
      if Owns(user, id) {
        decks := decks - {id};
        r := Ok(());
      } else {
        r := Err(DeckNotFound);
      }
    }
  }
}
