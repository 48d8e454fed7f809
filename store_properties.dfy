/**
 * Clients of the store: sequences of calls, and what their contracts alone
 * let a caller conclude.
 */
module StoreProperties {
  import opened Wrappers
  import opened Json
  import opened Decks
  import opened Errors
  import Patch
  import opened DeckStore

  /**
   * After `create` accepts a deck, `getDeck` of the new id returns the
   * validated content as it was stored, the owner's display name and the
   * initial version.
   */
  method CreateThenGet(s: Store, candidate: Value, user: UserId)
    returns (created: Result<DeckId, ErrorKind>, read: Result<Deck, ErrorKind>)
    requires s.Valid() && user in s.users
    requires Validate(candidate).Ok?
    modifies s
    ensures created.Ok? && created.value !in old(s.decks)
    ensures read == Ok(Deck(SerialiseDeck(Validate(candidate).value), old(s.users)[user].name, s.initialVersion))
  {
    created := s.Create(candidate, user);
    read := s.GetDeck(created.value, None);
  }

  /** A rejected deck leaves both tables as they were. */
  method BadDeckWritesNothing(s: Store, candidate: Value, user: UserId) returns (created: Result<DeckId, ErrorKind>)
    requires s.Valid()
    requires Validate(candidate).Err?
    modifies s
    ensures created == Err(BadDeck)
    ensures s.decks == old(s.decks) && s.users == old(s.users)
  {
    created := s.Create(candidate, user);
  }

  /** A delete by someone else is DeckNotFound, and the owner still reads the deck. */
  method NonOwnerDeleteIsNotFound(s: Store, id: DeckId, owner: UserId, other: UserId)
    returns (deleted: Result<(), ErrorKind>, read: Result<Deck, ErrorKind>)
    requires s.Valid() && s.Visible(id, Some(owner)) && other != owner
    modifies s
    ensures deleted == Err(DeckNotFound)
    ensures read == Ok(old(s.DeckAt(id)))
  {
    deleted := s.DeleteDeck(id, other);
    read := s.GetDeck(id, Some(owner));
  }

  /** After the owner deletes a deck, neither the deck nor its summary can be read. */
  method DeleteThenGet(s: Store, id: DeckId, user: UserId)
    returns (deleted: Result<(), ErrorKind>, read: Result<Deck, ErrorKind>, summary: Result<Summary, ErrorKind>)
    requires s.Valid() && s.Owns(user, id)
    modifies s
    ensures deleted == Ok(())
    ensures read == Err(DeckNotFound) && summary == Err(DeckNotFound)
  {
    deleted := s.DeleteDeck(id, user);
    read := s.GetDeck(id, None);
    summary := s.GetSummary(id);
  }

  /**
   * Optimistic concurrency as the client uses it: a patch that opens with a
   * test of a version other than the stored one fails with PatchTestFailed
   * and writes nothing, given a patch library that honours a `test` of
   * `/version`.
   */
  method StaleVersionGuardRejected(s: Store, id: DeckId, user: UserId, expected: int, rest: seq<Value>)
    returns (r: Result<Value, ErrorKind>)
    requires s.Valid() && s.Visible(id, Some(user))
    requires expected != s.decks[id].version
    requires Patch.HonoursLeadingTest(s.applyPatch, "version")
    modifies s
    ensures r == Err(PatchTestFailed)
    ensures s.decks == old(s.decks) && s.users == old(s.users)
  {
    Patch.TestMemberFailsIff(EncodeDeck(s.DeckAt(id)), "version", JNum(expected));
    r := s.UpdateDeck(id, user, [Patch.TestMember("version", JNum(expected))] + rest);
  }

  /**
   * No code in the store advances `version`: after a successful update the
   * stored version is the old one, so a second writer holding the same
   * version guard is not stopped by it.
   */
  method VersionGuardSurvivesUpdate(s: Store, id: DeckId, user: UserId, patch: seq<Value>)
    returns (r: Result<Value, ErrorKind>, reread: Result<Deck, ErrorKind>)
    requires s.Valid() && s.Visible(id, Some(user))
    modifies s
    ensures r.Ok? ==> reread.Ok? && reread.value.version == old(s.decks[id].version)
    ensures r.Ok? ==>
      !Patch.FailingMemberTest(EncodeDeck(reread.value), Patch.TestMember("version", JNum(old(s.decks[id].version))))
  {
    ghost var version := s.decks[id].version;
    r := s.UpdateDeck(id, user, patch);
    reread := s.GetDeck(id, Some(user));
    if r.Ok? {
      assert reread.value.version == version;
      CurrentVersionGuardPasses(reread.value);
    }
  }

  /** A successful update stores content that passes `validate` again, unchanged. */
  method UpdatedContentRevalidates(s: Store, id: DeckId, user: UserId, patch: seq<Value>)
    returns (r: Result<Value, ErrorKind>)
    requires s.Valid()
    modifies s
    ensures r.Ok? ==> id in s.decks && Validate(EncodeEditable(s.decks[id].deck)) == Ok(s.decks[id].deck)
  {
    r := s.UpdateDeck(id, user, patch);
    if r.Ok? {
      ValidateAcceptsExactlySlotted(s.decks[id].deck);
    }
  }

  /** A repeated `findOrCreateUser` with the same Google id returns the same user. */
  method FindOrCreateUserTwice(s: Store, googleId: string, googleName: Option<string>, fresh1: UserId, fresh2: UserId)
    returns (first: User, second: User)
    requires s.Valid() && fresh1 !in s.users && fresh2 !in s.users && fresh1 != fresh2
    modifies s
    ensures first == second
  {
    first := s.FindOrCreateUser(googleId, googleName, fresh1);
    second := s.FindOrCreateUser(googleId, googleName, fresh2);
  }

  /** A repeated `findOrCreateGuestUser` returns the same guest. */
  method FindOrCreateGuestUserTwice(s: Store, fresh1: UserId, fresh2: UserId)
    returns (first: User, second: User)
    requires s.Valid() && fresh1 !in s.users && fresh2 !in s.users && fresh1 != fresh2
    modifies s
    ensures first == second
  {
    first := s.FindOrCreateGuestUser(fresh1);
    second := s.FindOrCreateGuestUser(fresh2);
  }
}
