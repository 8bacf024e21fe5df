/** The REST handlers over an in-memory store: registration, the profile,
    dictionary create/read/update/delete, the listing and the marketplace,
    the words of a dictionary, word creation, purchases, and learning
    progress. The authenticated requester is an explicit user id; the image
    search service is a function parameter. */
module Views {
  import opened Common
  import opened Models
  import opened Serializers

  /** Why a request was answered 400. */
  datatype Reason =
    | MissingCredentials
    | EmailTaken
    | UsernameTaken
    | PaymentCodeRequired
    | InvalidPaymentCode
    | NotForSale
    | OwnDictionary
    | AlreadyPurchased
    | InvalidDictionary(dictionaryError: DictionaryError)
    | InvalidProfile(profileFields: set<ProfileField>)
    | InvalidWord(wordFields: set<WordField>)
    | InvalidLearnedWords

  /** 400, 403, 404 and 500. */
  datatype Error = BadRequest(reason: Reason) | Forbidden | NotFound | ServerError

  /** 200 and 201 carry a body, 204 none. */
  datatype Response<+T> = Ok(body: T) | Created(body: T) | NoContent | Failed(error: Error)

  /** The code the simulated payment accepts. */
  const PaymentCode: string := "1013"

  // ------------------------------------------------------------ access rule

  /** A user may read a dictionary they own or have bought. */
  predicate CanAccess(dictionaries: map<DictionaryId, Dictionary>, purchases: set<Purchase>,
                      u: UserId, id: DictionaryId)
    requires id in dictionaries
  {
    dictionaries[id].owner == u || HasPurchase(purchases, u, id)
  }

  /** The checks in front of every read of one dictionary (detail, words,
      progress): the lookup first, then the access rule. */
  function ReadGate(dictionaries: map<DictionaryId, Dictionary>, purchases: set<Purchase>,
                    u: UserId, id: DictionaryId): (r: Option<Error>)
    ensures r == Some(NotFound) <==> id !in dictionaries
    ensures r == Some(Forbidden) <==> id in dictionaries && !CanAccess(dictionaries, purchases, u, id)
    ensures r.None? <==> id in dictionaries && CanAccess(dictionaries, purchases, u, id)
  {
    if id !in dictionaries then Some(NotFound)
    else if !CanAccess(dictionaries, purchases, u, id) then Some(Forbidden)
    else None
  }

  /** The checks in front of an update or a delete: the lookup first, then
      ownership; a purchase gives no right to write. */
  function WriteGate(dictionaries: map<DictionaryId, Dictionary>, u: UserId, id: DictionaryId): (r: Option<Error>)
    ensures r == Some(NotFound) <==> id !in dictionaries
    ensures r == Some(Forbidden) <==> id in dictionaries && dictionaries[id].owner != u
    ensures r.None? <==> id in dictionaries && dictionaries[id].owner == u
  {
    if id !in dictionaries then Some(NotFound)
    else if dictionaries[id].owner != u then Some(Forbidden)
    else None
  }

  /** A buyer who is not the owner may read the dictionary but not change it. */
  lemma BuyerReadsButCannotWrite(dictionaries: map<DictionaryId, Dictionary>, purchases: set<Purchase>,
                                 u: UserId, id: DictionaryId, a: AccessType)
    requires id in dictionaries && dictionaries[id].owner != u
    requires Purchase(u, id, a) in purchases
    ensures ReadGate(dictionaries, purchases, u, id).None?
    ensures WriteGate(dictionaries, u, id) == Some(Forbidden)
  {
    HasPurchaseOfSomeType(purchases, u, id);
  }

  // ----------------------------------------------------------- registration

  predicate EmailInUse(users: map<UserId, User>, email: string) {
    exists id :: id in users && users[id].email == email
  }

  predicate UsernameInUse(users: map<UserId, User>, username: string) {
    exists id :: id in users && users[id].username == username
  }

  /** `RegisterView.post`'s checks, in order: a missing (or empty) field,
      then a taken email, then a taken username. */
  function RegistrationRejection(users: map<UserId, User>, username: Option<string>,
                                 email: Option<string>, password: Option<string>): (r: Option<Reason>)
    ensures r == Some(MissingCredentials) <==> !Present(username) || !Present(email) || !Present(password)
    ensures r == Some(EmailTaken) <==>
      Present(username) && Present(email) && Present(password) && EmailInUse(users, email.value)
    ensures r == Some(UsernameTaken) <==>
      Present(username) && Present(email) && Present(password) &&
      !EmailInUse(users, email.value) && UsernameInUse(users, username.value)
    ensures r.None? <==>
      Present(username) && Present(email) && Present(password) &&
      !EmailInUse(users, email.value) && !UsernameInUse(users, username.value)
  {
    if !Present(username) || !Present(email) || !Present(password) then Some(MissingCredentials)
    else if EmailInUse(users, email.value) then Some(EmailTaken)
    else if UsernameInUse(users, username.value) then Some(UsernameTaken)
    else None
  }

  /** The email check compares the address as sent with the stored ones,
      which are normalized: after "b@Mail" registered (stored as "b@mail"),
      a second registration with "b@Mail" passes the check and stores the
      same address again. */
  lemma RegistrationAdmitsStoredDuplicate()
    ensures var users := map[0 := NewUser("bob", "b@Mail")];
            RegistrationRejection(users, Some("bob2"), Some("b@Mail"), Some("pw")).None? &&
            NewUser("bob2", "b@Mail").email == users[0].email
  {
    NormalizeEmailExample();
    var users := map[0 := NewUser("bob", "b@Mail")];
    assert users[0].email[2] != "b@Mail"[2];
  }

  // --------------------------------------------------------------- purchase

  /** `PurchaseDictionaryView.post`'s checks, in order: the lookup, a missing
      code, a wrong code, not for sale, the buyer's own dictionary, an
      earlier purchase. Only the string "1013" is the right code. */
  function PurchaseRejection(dictionaries: map<DictionaryId, Dictionary>, purchases: set<Purchase>,
                             u: UserId, id: DictionaryId, code: Option<Json>): (r: Option<Error>)
    ensures r == Some(NotFound) <==> id !in dictionaries
    ensures r == Some(BadRequest(PaymentCodeRequired)) <==> id in dictionaries && !Truthy(code)
    ensures r == Some(BadRequest(InvalidPaymentCode)) <==>
      id in dictionaries && Truthy(code) && code != Some(Str(PaymentCode))
    ensures r == Some(BadRequest(NotForSale)) <==>
      id in dictionaries && code == Some(Str(PaymentCode)) && !dictionaries[id].isForSale
    ensures r == Some(BadRequest(OwnDictionary)) <==>
      id in dictionaries && code == Some(Str(PaymentCode)) && dictionaries[id].isForSale &&
      dictionaries[id].owner == u
    ensures r == Some(BadRequest(AlreadyPurchased)) <==>
      id in dictionaries && code == Some(Str(PaymentCode)) && dictionaries[id].isForSale &&
      dictionaries[id].owner != u && HasPurchase(purchases, u, id)
    ensures r.None? <==>
      id in dictionaries && code == Some(Str(PaymentCode)) && dictionaries[id].isForSale &&
      dictionaries[id].owner != u && !HasPurchase(purchases, u, id)
  {
    if id !in dictionaries then Some(NotFound)
    else if !Truthy(code) then Some(BadRequest(PaymentCodeRequired))
    else if code != Some(Str(PaymentCode)) then Some(BadRequest(InvalidPaymentCode))
    else if !dictionaries[id].isForSale then Some(BadRequest(NotForSale))
    else if dictionaries[id].owner == u then Some(BadRequest(OwnDictionary))
    else if HasPurchase(purchases, u, id) then Some(BadRequest(AlreadyPurchased))
    else None
  }

  /** `access_type` defaults to permanent, and anything but "temporary" or
      "permanent" also becomes permanent. */
  function ResolveAccessType(raw: Option<Json>): (a: AccessType)
    ensures a == Temporary <==> raw == Some(Str("temporary"))
    ensures raw.None? || raw == Some(Str("permanent")) ==> a == Permanent
  {
    var code := match raw case Some(Str(s)) => s case _ => "permanent";
    match ParseAccessType(code)
    case Some(a) => a
    case None => Permanent
  }

  /** A purchase that passed the checks lets the buyer read the dictionary,
      and the same purchase request is then rejected as a repeat. */
  lemma {:induction false} PurchaseThenRepeat(dictionaries: map<DictionaryId, Dictionary>,
                                              purchases: set<Purchase>, u: UserId, id: DictionaryId,
                                              code: Option<Json>, accessType: Option<Json>)
    requires PurchaseRejection(dictionaries, purchases, u, id, code).None?
    ensures var after := purchases + {Purchase(u, id, ResolveAccessType(accessType))};
            CanAccess(dictionaries, after, u, id) &&
            PurchaseRejection(dictionaries, after, u, id, code) == Some(BadRequest(AlreadyPurchased))
  {
    var p := Purchase(u, id, ResolveAccessType(accessType));
    HasPurchaseOfSomeType(purchases + {p}, u, id);
    assert p in purchases + {p};
  }

  // ------------------------------------------------------------ cover image

  /** Whether the image search runs, and with what query. An uploaded file
      or a stored file (on update) or a non-empty link suppresses it;
      otherwise the query is the sent name, or `fallback` when none is sent. */
  function CoverLookupQuery(input: DictionaryInput, fallback: string, hasStoredFile: bool): (q: Option<string>)
    ensures q.None? <==> FileUploaded(input) || hasStoredFile || Present(input.coverImage)
    ensures q.Some? ==> q.value == input.name.GetOr(fallback)
  {
    if FileUploaded(input) then None
    else if !Present(input.coverImage) && !hasStoredFile then Some(input.name.GetOr(fallback))
    else None
  }

  /** A PUT that sends the cover file as null, on a dictionary with a stored
      file: the search is skipped because a file is stored, the file is
      cleared, and the answer's cover URL falls back to the link, if any. */
  lemma NullFileClearsStoredCover(d: Dictionary, f: FileRef)
    requires d.coverImageFile == Some(f)
    ensures var input := NoChanges.(coverImageFile := Some(None));
            CoverLookupQuery(input, d.name, true).None? &&
            Patched(d, input).coverImageFile.None? &&
            CoverImageUrl(Patched(d, input)) == (if d.coverImage != "" then Some(LinkUrl(d.coverImage)) else None)
  {
  }

  /** The body after the image search: a non-empty result becomes the
      cover link; no result leaves the body as sent. */
  function WithCover(input: DictionaryInput, query: Option<string>,
                     imageService: string -> Option<string>): (r: DictionaryInput)
    ensures r.(coverImage := input.coverImage) == input
    ensures query.Some? && Present(imageService(query.value)) ==> r.coverImage == imageService(query.value)
    ensures query.None? || !Present(imageService(query.value)) ==> r == input
  {
    match query
    case None => input
    case Some(q) => if Present(imageService(q)) then input.(coverImage := imageService(q)) else input
  }

  /** `WordCreateView.post`: the search runs when no image link is sent,
      with the sent word, or "language", as the query. */
  function WordImageQuery(input: WordInput): (q: Option<string>)
    ensures q.None? <==> Present(input.imageUrl)
    ensures q.Some? ==> q.value == input.word.GetOr("language")
  {
    if Present(input.imageUrl) then None else Some(input.word.GetOr("language"))
  }

  function WithImage(input: WordInput, query: Option<string>,
                     imageService: string -> Option<string>): (r: WordInput)
    ensures r.(imageUrl := input.imageUrl) == input
    ensures query.Some? && Present(imageService(query.value)) ==> r.imageUrl == imageService(query.value)
    ensures query.None? || !Present(imageService(query.value)) ==> r == input
  {
    match query
    case None => input
    case Some(q) => if Present(imageService(q)) then input.(imageUrl := imageService(q)) else input
  }

  /** What a word-create request produces: 400 for an invalid body (after
      the image search), 500 when `dictionary_id` names no dictionary of the
      requester, otherwise the new row in that dictionary. */
  function WordCreation(dictionaries: map<DictionaryId, Dictionary>, u: UserId, input: WordInput,
                        dictionaryId: Option<int>, imageService: string -> Option<string>): (r: Result<Word, Error>)
    ensures var data := WithImage(input, WordImageQuery(input), imageService);
            (r == Failure(BadRequest(InvalidWord(WordFieldErrors(data)))) <==> WordFieldErrors(data) != {}) &&
            (r == Failure(ServerError) <==>
               WordFieldErrors(data) == {} && OwnedDictionary(dictionaries, u, dictionaryId).None?) &&
            (r.Success? ==> r.value.dictionary in dictionaries && dictionaries[r.value.dictionary].owner == u &&
                            r.value.dictionary as int == dictionaryId.value && r.value == NewWord(r.value.dictionary, data))
  {
    var data := WithImage(input, WordImageQuery(input), imageService);
    var errors := WordFieldErrors(data);
    if errors != {} then Failure(BadRequest(InvalidWord(errors)))
    else match OwnedDictionary(dictionaries, u, dictionaryId)
      case None => Failure(ServerError)
      case Some(dictionary) => Success(NewWord(dictionary, data))
  }

  /** The body of a create or update answer. */
  datatype DictionarySummary = DictionarySummary(id: DictionaryId, name: string, coverImageUrl: Option<CoverUrl>)

  function Summary(id: DictionaryId, d: Dictionary): (s: DictionarySummary)
    ensures s.id == id && s.name == d.name && s.coverImageUrl == CoverImageUrl(d)
  {
    DictionarySummary(id, d.name, CoverImageUrl(d))
  }

  // ---------------------------------------------------------------- cascade

  /** The words left when a dictionary is deleted. */
  function RemainingWords(words: map<WordId, Word>, id: DictionaryId): (r: map<WordId, Word>)
    ensures forall w :: w in r <==> w in words && words[w].dictionary != id
    ensures forall w :: w in r ==> r[w] == words[w]
  {
    map w | w in words && words[w].dictionary != id :: words[w]
  }

  function RemainingPurchases(purchases: set<Purchase>, id: DictionaryId): (r: set<Purchase>)
    ensures forall p :: p in r <==> p in purchases && p.dictionary != id
  {
    set p | p in purchases && p.dictionary != id
  }

  /** The progress records left: those of other dictionaries, with the
      deleted words taken out of their learned sets. */
  function RemainingProgress(progress: map<ProgressKey, set<WordId>>, id: DictionaryId,
                             removed: set<WordId>): (r: map<ProgressKey, set<WordId>>)
    ensures forall k :: k in r <==> k in progress && k.1 != id
    ensures forall k :: k in r ==> r[k] == progress[k] - removed
  {
    map k | k in progress && k.1 != id :: progress[k] - removed
  }

  // ----------------------------------------------------------------- tables

  /** The contents of the store's tables and its next ids. */
  datatype Tables = Tables(
    users: map<UserId, User>,
    dictionaries: map<DictionaryId, Dictionary>,
    words: map<WordId, Word>,
    purchases: set<Purchase>,
    progress: map<ProgressKey, set<WordId>>,
    nextUserId: nat,
    nextDictionaryId: nat,
    nextWordId: nat)

  /** Every id is below its table's next id, so a new row gets a fresh id. */
  ghost predicate IdsBelow(ids: set<nat>, next: nat) {
    forall id :: id in ids ==> id < next
  }

  /** Every dictionary's owner is a user (a foreign key). */
  ghost predicate OwnersExist(users: map<UserId, User>, dictionaries: map<DictionaryId, Dictionary>) {
    forall id :: id in dictionaries ==> dictionaries[id].owner in users
  }

  /** Every word's dictionary exists (a foreign key). */
  ghost predicate WordsInDictionaries(words: map<WordId, Word>, dictionaries: map<DictionaryId, Dictionary>) {
    forall w :: w in words ==> words[w].dictionary in dictionaries
  }

  /** Every purchase's user and dictionary exist (foreign keys). */
  ghost predicate PurchaseRefs(purchases: set<Purchase>, users: map<UserId, User>,
                               dictionaries: map<DictionaryId, Dictionary>) {
    forall p :: p in purchases ==> p.user in users && p.dictionary in dictionaries
  }

  /** Every progress record's user and dictionary exist, and its learned
      words are words (the many-to-many table only holds existing rows). */
  ghost predicate ProgressRefs(progress: map<ProgressKey, set<WordId>>, users: map<UserId, User>,
                               dictionaries: map<DictionaryId, Dictionary>, words: map<WordId, Word>) {
    forall k :: k in progress ==> k.0 in users && k.1 in dictionaries && progress[k] <= words.Keys
  }

  /** No two users share a username (the column is unique). Emails are
      not unique: the duplicate check compares the address as sent with the
      stored, normalized ones, so a second account can end up with the same
      stored address (see `RegistrationAdmitsStoredDuplicate`). */
  ghost predicate UniqueUsernames(users: map<UserId, User>) {
    forall a, b :: a in users && b in users && a != b ==> users[a].username != users[b].username
  }

  ghost predicate ValidTimes(users: map<UserId, User>) {
    forall id :: id in users ==> ValidNotificationTime(users[id])
  }

  ghost predicate ValidColumns(dictionaries: map<DictionaryId, Dictionary>) {
    forall id :: id in dictionaries ==> ColumnsValid(dictionaries[id])
  }

  /** Nobody has bought their own dictionary. */
  ghost predicate NoSelfPurchase(purchases: set<Purchase>, dictionaries: map<DictionaryId, Dictionary>) {
    forall p :: p in purchases && p.dictionary in dictionaries ==> p.user != dictionaries[p.dictionary].owner
  }

  /** At most one purchase per (user, dictionary). */
  ghost predicate OnePurchasePerPair(purchases: set<Purchase>) {
    forall p, q :: p in purchases && q in purchases && p.user == q.user && p.dictionary == q.dictionary ==> p == q
  }

  /** Progress is only kept for a dictionary its user may read. */
  ghost predicate ProgressReadable(progress: map<ProgressKey, set<WordId>>,
                                   dictionaries: map<DictionaryId, Dictionary>, purchases: set<Purchase>) {
    forall k :: k in progress && k.1 in dictionaries ==> CanAccess(dictionaries, purchases, k.0, k.1)
  }

  /** What every handler keeps. */
  ghost predicate Consistent(t: Tables) {
    IdsBelow(t.users.Keys, t.nextUserId) && IdsBelow(t.dictionaries.Keys, t.nextDictionaryId) &&
    IdsBelow(t.words.Keys, t.nextWordId) &&
    OwnersExist(t.users, t.dictionaries) && WordsInDictionaries(t.words, t.dictionaries) &&
    PurchaseRefs(t.purchases, t.users, t.dictionaries) &&
    ProgressRefs(t.progress, t.users, t.dictionaries, t.words) &&
    UniqueUsernames(t.users) && ValidTimes(t.users) && ValidColumns(t.dictionaries) &&
    NoSelfPurchase(t.purchases, t.dictionaries) && OnePurchasePerPair(t.purchases) &&
    ProgressReadable(t.progress, t.dictionaries, t.purchases)
  }

  const EmptyTables := Tables(map[], map[], map[], {}, map[], 0, 0, 0)

  lemma EmptyConsistent()
    ensures Consistent(EmptyTables)
  {
  }

  /** A fresh id keeps the ids below the next one after it. */
  lemma {:induction false} FreshIdBelow(ids: set<nat>, next: nat)
    requires IdsBelow(ids, next)
    ensures next !in ids && IdsBelow(ids + {next}, next + 1)
  {
  }

  /** Registration keeps the tables consistent. */
  lemma {:induction false} AddUserConsistent(t: Tables, username: string, email: string)
    requires Consistent(t)
    requires !UsernameInUse(t.users, username)
    ensures Consistent(t.(users := t.users[t.nextUserId := NewUser(username, email)],
                          nextUserId := t.nextUserId + 1))
  {
    var users := t.users[t.nextUserId := NewUser(username, email)];
    FreshIdBelow(t.users.Keys, t.nextUserId);
    assert users.Keys == t.users.Keys + {t.nextUserId};
    forall a, b | a in users && b in users && a != b
      ensures users[a].username != users[b].username
    {
      if a == t.nextUserId {
        assert b in t.users;
      } else if b == t.nextUserId {
        assert a in t.users;
      }
    }
    assert OwnersExist(users, t.dictionaries);
    assert PurchaseRefs(t.purchases, users, t.dictionaries);
    assert ProgressRefs(t.progress, users, t.dictionaries, t.words);
    assert ValidTimes(users);
  }

  /** A profile update that keeps the account and a valid time. */
  lemma {:induction false} ReplaceUserConsistent(t: Tables, u: UserId, updated: User)
    requires Consistent(t) && u in t.users
    requires updated.email == t.users[u].email && updated.username == t.users[u].username
    requires ValidNotificationTime(updated)
    ensures Consistent(t.(users := t.users[u := updated]))
  {
    var users := t.users[u := updated];
    assert users.Keys == t.users.Keys;
    assert OwnersExist(users, t.dictionaries);
    assert PurchaseRefs(t.purchases, users, t.dictionaries);
    assert ProgressRefs(t.progress, users, t.dictionaries, t.words);
    assert UniqueUsernames(users);
    assert ValidTimes(users);
  }

  /** Adding a dictionary keeps every reference to the old ones. */
  lemma {:induction false} DictionaryAddedRefs(t: Tables, d: Dictionary)
    requires Consistent(t) && d.owner in t.users
    ensures var dictionaries := t.dictionaries[t.nextDictionaryId := d];
            OwnersExist(t.users, dictionaries) && WordsInDictionaries(t.words, dictionaries) &&
            PurchaseRefs(t.purchases, t.users, dictionaries) &&
            ProgressRefs(t.progress, t.users, dictionaries, t.words)
  {
  }

  /** Adding a dictionary keeps the purchase and progress rules. */
  lemma {:induction false} DictionaryAddedRules(t: Tables, d: Dictionary)
    requires Consistent(t)
    ensures var dictionaries := t.dictionaries[t.nextDictionaryId := d];
            NoSelfPurchase(t.purchases, dictionaries) &&
            ProgressReadable(t.progress, dictionaries, t.purchases)
  {
    var dictionaries := t.dictionaries[t.nextDictionaryId := d];
    FreshIdBelow(t.dictionaries.Keys, t.nextDictionaryId);
    forall k | k in t.progress && k.1 in dictionaries
      ensures CanAccess(dictionaries, t.purchases, k.0, k.1)
    {
      assert CanAccess(t.dictionaries, t.purchases, k.0, k.1);
    }
  }

  /** A new dictionary of an existing user that meets the column constraints. */
  lemma {:induction false} AddDictionaryConsistent(t: Tables, d: Dictionary)
    requires Consistent(t) && d.owner in t.users && ColumnsValid(d)
    ensures Consistent(t.(dictionaries := t.dictionaries[t.nextDictionaryId := d],
                          nextDictionaryId := t.nextDictionaryId + 1))
  {
    var dictionaries := t.dictionaries[t.nextDictionaryId := d];
    FreshIdBelow(t.dictionaries.Keys, t.nextDictionaryId);
    assert dictionaries.Keys == t.dictionaries.Keys + {t.nextDictionaryId};
    DictionaryAddedRefs(t, d);
    DictionaryAddedRules(t, d);
    assert ValidColumns(dictionaries);
  }

  /** The same dictionary, same owner, new values within the columns. */
  lemma {:induction false} ReplaceDictionaryConsistent(t: Tables, id: DictionaryId, d: Dictionary)
    requires Consistent(t) && id in t.dictionaries
    requires d.owner == t.dictionaries[id].owner && ColumnsValid(d)
    ensures Consistent(t.(dictionaries := t.dictionaries[id := d]))
  {
    var dictionaries := t.dictionaries[id := d];
    assert dictionaries.Keys == t.dictionaries.Keys;
    DictionaryReplacedRefs(t, id, d);
    DictionaryReplacedRules(t, id, d);
    assert ValidColumns(dictionaries);
  }

  lemma {:induction false} DictionaryReplacedRefs(t: Tables, id: DictionaryId, d: Dictionary)
    requires Consistent(t) && id in t.dictionaries && d.owner in t.users
    ensures var dictionaries := t.dictionaries[id := d];
            OwnersExist(t.users, dictionaries) && WordsInDictionaries(t.words, dictionaries) &&
            PurchaseRefs(t.purchases, t.users, dictionaries) &&
            ProgressRefs(t.progress, t.users, dictionaries, t.words)
  {
  }

  lemma {:induction false} DictionaryReplacedRules(t: Tables, id: DictionaryId, d: Dictionary)
    requires Consistent(t) && id in t.dictionaries && d.owner == t.dictionaries[id].owner
    ensures var dictionaries := t.dictionaries[id := d];
            NoSelfPurchase(t.purchases, dictionaries) &&
            ProgressReadable(t.progress, dictionaries, t.purchases)
  {
    var dictionaries := t.dictionaries[id := d];
    forall k | k in t.progress && k.1 in dictionaries
      ensures CanAccess(dictionaries, t.purchases, k.0, k.1)
    {
      assert CanAccess(t.dictionaries, t.purchases, k.0, k.1);
    }
  }

  /** The tables after the cascade of a dictionary delete. */
  function DeleteCascade(t: Tables, id: DictionaryId): Tables {
    t.(dictionaries := t.dictionaries - {id},
       words := RemainingWords(t.words, id),
       purchases := RemainingPurchases(t.purchases, id),
       progress := RemainingProgress(t.progress, id, WordsOf(t.words, id).Keys))
  }

  /** After the cascade no row refers to the deleted dictionary or its words. */
  lemma {:induction false} DeleteLeavesNoTrace(t: Tables, id: DictionaryId)
    ensures var t' := DeleteCascade(t, id);
            id !in t'.dictionaries &&
            (forall w :: w in t'.words ==> t'.words[w].dictionary != id) &&
            (forall p :: p in t'.purchases ==> p.dictionary != id) &&
            (forall k :: k in t'.progress ==> k.1 != id && t'.progress[k] !! WordsOf(t.words, id).Keys)
  {
  }

  lemma {:induction false} DeleteKeepsRefs(t: Tables, id: DictionaryId)
    requires Consistent(t)
    ensures var t' := DeleteCascade(t, id);
            OwnersExist(t'.users, t'.dictionaries) && WordsInDictionaries(t'.words, t'.dictionaries) &&
            PurchaseRefs(t'.purchases, t'.users, t'.dictionaries)
  {
  }

  lemma {:induction false} DeleteKeepsProgressRefs(t: Tables, id: DictionaryId)
    requires Consistent(t)
    ensures var t' := DeleteCascade(t, id);
            ProgressRefs(t'.progress, t'.users, t'.dictionaries, t'.words)
  {
    var t' := DeleteCascade(t, id);
    var removed := WordsOf(t.words, id).Keys;
    forall k | k in t'.progress
      ensures k.0 in t'.users && k.1 in t'.dictionaries && t'.progress[k] <= t'.words.Keys
    {
      forall w | w in t'.progress[k]
        ensures w in t'.words
      {
        assert w in t.progress[k] && w !in removed;
      }
    }
  }

  lemma {:induction false} DeleteKeepsRules(t: Tables, id: DictionaryId)
    requires Consistent(t)
    ensures var t' := DeleteCascade(t, id);
            NoSelfPurchase(t'.purchases, t'.dictionaries) && OnePurchasePerPair(t'.purchases) &&
            ProgressReadable(t'.progress, t'.dictionaries, t'.purchases)
  {
    var t' := DeleteCascade(t, id);
    forall k | k in t'.progress && k.1 in t'.dictionaries
      ensures CanAccess(t'.dictionaries, t'.purchases, k.0, k.1)
    {
      assert CanAccess(t.dictionaries, t.purchases, k.0, k.1);
      if t.dictionaries[k.1].owner != k.0 {
        HasPurchaseOfSomeType(t.purchases, k.0, k.1);
        var a :| Purchase(k.0, k.1, a) in t.purchases;
        assert Purchase(k.0, k.1, a) in t'.purchases;
        HasPurchaseOfSomeType(t'.purchases, k.0, k.1);
      }
    }
  }

  /** The cascade keeps the tables consistent. */
  lemma {:induction false} DeleteConsistent(t: Tables, id: DictionaryId)
    requires Consistent(t)
    ensures Consistent(DeleteCascade(t, id))
  {
    var t' := DeleteCascade(t, id);
    assert IdsBelow(t'.dictionaries.Keys, t'.nextDictionaryId);
    assert IdsBelow(t'.words.Keys, t'.nextWordId);
    DeleteKeepsRefs(t, id);
    DeleteKeepsProgressRefs(t, id);
    DeleteKeepsRules(t, id);
    assert ValidColumns(t'.dictionaries);
  }

  /** A new word of an existing dictionary. */
  lemma {:induction false} AddWordConsistent(t: Tables, w: Word)
    requires Consistent(t) && w.dictionary in t.dictionaries
    ensures Consistent(t.(words := t.words[t.nextWordId := w], nextWordId := t.nextWordId + 1))
  {
    var words := t.words[t.nextWordId := w];
    FreshIdBelow(t.words.Keys, t.nextWordId);
    assert words.Keys == t.words.Keys + {t.nextWordId};
    assert WordsInDictionaries(words, t.dictionaries);
    assert ProgressRefs(t.progress, t.users, t.dictionaries, words);
  }

  /** A new purchase of a (user, dictionary) pair without one. */
  lemma {:induction false} PurchaseAddedUnique(purchases: set<Purchase>, p: Purchase)
    requires OnePurchasePerPair(purchases)
    requires !HasPurchase(purchases, p.user, p.dictionary)
    ensures OnePurchasePerPair(purchases + {p})
  {
    forall q | q in purchases && q.user == p.user && q.dictionary == p.dictionary
      ensures false
    {
      assert q == Purchase(p.user, p.dictionary, q.accessType);
      HasPurchaseOfSomeType(purchases, p.user, p.dictionary);
    }
  }

  /** A purchase that passed the checks. */
  lemma {:induction false} AddPurchaseConsistent(t: Tables, p: Purchase)
    requires Consistent(t) && p.user in t.users && p.dictionary in t.dictionaries
    requires p.user != t.dictionaries[p.dictionary].owner
    requires !HasPurchase(t.purchases, p.user, p.dictionary)
    ensures Consistent(t.(purchases := t.purchases + {p}))
  {
    var purchases := t.purchases + {p};
    assert PurchaseRefs(purchases, t.users, t.dictionaries);
    assert NoSelfPurchase(purchases, t.dictionaries);
    PurchaseAddedUnique(t.purchases, p);
    forall k | k in t.progress && k.1 in t.dictionaries
      ensures CanAccess(t.dictionaries, purchases, k.0, k.1)
    {
      assert CanAccess(t.dictionaries, t.purchases, k.0, k.1);
    }
  }

  /** A progress record of a user for a readable dictionary, holding
      existing words. */
  lemma {:induction false} SetProgressConsistent(t: Tables, k: ProgressKey, learned: set<WordId>)
    requires Consistent(t) && k.0 in t.users && k.1 in t.dictionaries
    requires CanAccess(t.dictionaries, t.purchases, k.0, k.1)
    requires learned <= t.words.Keys
    ensures Consistent(t.(progress := t.progress[k := learned]))
  {
    var progress := t.progress[k := learned];
    assert ProgressRefs(progress, t.users, t.dictionaries, t.words);
    assert ProgressReadable(progress, t.dictionaries, t.purchases);
  }

  // ------------------------------------------------------------------ store

  class Store {
    var users: map<UserId, User>
    var dictionaries: map<DictionaryId, Dictionary>
    var words: map<WordId, Word>
    var purchases: set<Purchase>
    /** One learning progress record per (user, dictionary): its learned words. */
    var progress: map<ProgressKey, set<WordId>>
    var nextUserId: nat
    var nextDictionaryId: nat
    var nextWordId: nat

    function Contents(): Tables
      reads this
    {
      Tables(users, dictionaries, words, purchases, progress, nextUserId, nextDictionaryId, nextWordId)
    }

    ghost predicate Valid()
      reads this
    {
      Consistent(Contents())
    }

    constructor ()
      ensures Valid()
      ensures users == map[] && dictionaries == map[] && words == map[]
      ensures purchases == {} && progress == map[]
    {
      users := map[];
      dictionaries := map[];
      words := map[];
      purchases := {};
      progress := map[];
      nextUserId := 0;
      nextDictionaryId := 0;
      nextWordId := 0;
    }

    // Each table change below is one step that keeps the store valid.

    method InsertUser(username: string, email: string) returns (id: UserId)
      requires Valid()
      requires !UsernameInUse(users, username)
      modifies this
      ensures Valid()
      ensures id !in old(users) && users == old(users)[id := NewUser(username, email)]
      ensures dictionaries == old(dictionaries) && words == old(words)
      ensures purchases == old(purchases) && progress == old(progress)
    {
      var t := Contents();
      id := nextUserId;
      var user := NewUser(username, email);
      var t' := t.(users := t.users[id := user], nextUserId := id + 1);
      AddUserConsistent(t, username, email);
      users := users[id := user];
      nextUserId := id + 1;
      assert Contents() == t';
    }

    method ReplaceUser(u: UserId, user: User)
      requires Valid() && u in users
      requires user.email == users[u].email && user.username == users[u].username
      requires ValidNotificationTime(user)
      modifies this
      ensures Valid()
      ensures users == old(users)[u := user]
      ensures dictionaries == old(dictionaries) && words == old(words)
      ensures purchases == old(purchases) && progress == old(progress)
    {
      var t := Contents();
      var t' := t.(users := t.users[u := user]);
      ReplaceUserConsistent(t, u, user);
      users := users[u := user];
      assert Contents() == t';
    }

    method InsertDictionary(d: Dictionary) returns (id: DictionaryId)
      requires Valid() && d.owner in users && ColumnsValid(d)
      modifies this
      ensures Valid()
      ensures id !in old(dictionaries) && dictionaries == old(dictionaries)[id := d]
      ensures users == old(users) && words == old(words)
      ensures purchases == old(purchases) && progress == old(progress)
    {
      var t := Contents();
      id := nextDictionaryId;
      var t' := t.(dictionaries := t.dictionaries[id := d], nextDictionaryId := id + 1);
      AddDictionaryConsistent(t, d);
      dictionaries := dictionaries[id := d];
      nextDictionaryId := id + 1;
      assert Contents() == t';
    }

    method ReplaceDictionary(id: DictionaryId, d: Dictionary)
      requires Valid() && id in dictionaries
      requires d.owner == dictionaries[id].owner && ColumnsValid(d)
      modifies this
      ensures Valid()
      ensures dictionaries == old(dictionaries)[id := d]
      ensures users == old(users) && words == old(words)
      ensures purchases == old(purchases) && progress == old(progress)
    {
      var t := Contents();
      var t' := t.(dictionaries := t.dictionaries[id := d]);
      ReplaceDictionaryConsistent(t, id, d);
      dictionaries := dictionaries[id := d];
      assert Contents() == t';
    }

    method RemoveDictionary(id: DictionaryId)
      requires Valid()
      modifies this
      ensures Valid()
      ensures dictionaries == old(dictionaries) - {id}
      ensures words == RemainingWords(old(words), id)
      ensures purchases == RemainingPurchases(old(purchases), id)
      ensures progress == RemainingProgress(old(progress), id, WordsOf(old(words), id).Keys)
      ensures users == old(users)
    {
      var t := Contents();
      var t' := DeleteCascade(t, id);
      DeleteConsistent(t, id);
      var removed := WordsOf(words, id).Keys;
      dictionaries := dictionaries - {id};
      words := RemainingWords(words, id);
      purchases := RemainingPurchases(purchases, id);
      progress := RemainingProgress(progress, id, removed);
      assert Contents() == t';
    }

    method InsertWord(w: Word) returns (id: WordId)
      requires Valid() && w.dictionary in dictionaries
      modifies this
      ensures Valid()
      ensures id !in old(words) && words == old(words)[id := w]
      ensures users == old(users) && dictionaries == old(dictionaries)
      ensures purchases == old(purchases) && progress == old(progress)
    {
      var t := Contents();
      id := nextWordId;
      var t' := t.(words := t.words[id := w], nextWordId := id + 1);
      AddWordConsistent(t, w);
      words := words[id := w];
      nextWordId := id + 1;
      assert Contents() == t';
    }

    method InsertPurchase(p: Purchase)
      requires Valid() && p.user in users && p.dictionary in dictionaries
      requires p.user != dictionaries[p.dictionary].owner
      requires !HasPurchase(purchases, p.user, p.dictionary)
      modifies this
      ensures Valid()
      ensures purchases == old(purchases) + {p}
      ensures users == old(users) && dictionaries == old(dictionaries)
      ensures words == old(words) && progress == old(progress)
    {
      var t := Contents();
      var t' := t.(purchases := t.purchases + {p});
      AddPurchaseConsistent(t, p);
      purchases := purchases + {p};
      assert Contents() == t';
    }

    method SetProgress(k: ProgressKey, learned: set<WordId>)
      requires Valid() && k.0 in users && k.1 in dictionaries
      requires CanAccess(dictionaries, purchases, k.0, k.1)
      requires learned <= words.Keys
      modifies this
      ensures Valid()
      ensures progress == old(progress)[k := learned]
      ensures users == old(users) && dictionaries == old(dictionaries)
      ensures words == old(words) && purchases == old(purchases)
    {
      var t := Contents();
      var t' := t.(progress := t.progress[k := learned]);
      SetProgressConsistent(t, k, learned);
      progress := progress[k := learned];
      assert Contents() == t';
    }

    /** `RegisterView.post`: a new user with the defaults, or the first
      failing check and no change. */
    method Register(username: Option<string>, email: Option<string>, password: Option<string>)
      returns (r: Response<UserId>)
      requires Valid()
      modifies this
      ensures Valid()
      ensures var rejection := RegistrationRejection(old(users), username, email, password);
              (rejection.Some? ==> r == Failed(BadRequest(rejection.value)) && users == old(users)) &&
              (rejection.None? ==> r.Created? && r.body !in old(users) &&
                                   users == old(users)[r.body := NewUser(username.value, email.value)])
      ensures dictionaries == old(dictionaries) && words == old(words)
      ensures purchases == old(purchases) && progress == old(progress)
    {
      var rejection := RegistrationRejection(users, username, email, password);
      if rejection.Some? {
        return Failed(BadRequest(rejection.value));
      }
      var id := InsertUser(username.value, email.value);
      r := Created(id);
    }

    /** `UserProfileView.put`: only the notification settings change. */
    method PutProfile(u: UserId, input: ProfileInput) returns (r: Response<User>)
      requires Valid() && u in users
      modifies this
      ensures Valid()
      ensures match Serializers.UpdateProfile(old(users[u]), input)
              case Failure(fields) => r == Failed(BadRequest(InvalidProfile(fields))) && users == old(users)
              case Success(updated) => r == Ok(updated) && users == old(users)[u := updated]
      ensures dictionaries == old(dictionaries) && words == old(words)
      ensures purchases == old(purchases) && progress == old(progress)
    {
      match Serializers.UpdateProfile(users[u], input)
      case Failure(fields) =>
        r := Failed(BadRequest(InvalidProfile(fields)));
      case Success(updated) =>
        ReplaceUser(u, updated);
        r := Ok(updated);
    }

    /** `DictionaryCreateView.post`: the image search, then validation, then
      a new dictionary owned by the requester. */
    method CreateDictionary(u: UserId, input: DictionaryInput, imageService: string -> Option<string>)
      returns (r: Response<DictionarySummary>)
      requires Valid() && u in users
      modifies this
      ensures Valid()
      ensures var data := WithCover(input, CoverLookupQuery(input, "language dictionary", false), imageService);
              match ValidateDictionary(data, true)
              case Failure(e) => r == Failed(BadRequest(InvalidDictionary(e))) && dictionaries == old(dictionaries)
              case Success(v) =>
                r.Created? && r.body.id !in old(dictionaries) &&
                dictionaries == old(dictionaries)[r.body.id := Create(u, v)] &&
                r.body == Summary(r.body.id, Create(u, v))
      ensures users == old(users) && words == old(words)
      ensures purchases == old(purchases) && progress == old(progress)
    {
      var data := WithCover(input, CoverLookupQuery(input, "language dictionary", false), imageService);
      match ValidateDictionary(data, true)
      case Failure(e) =>
        r := Failed(BadRequest(InvalidDictionary(e)));
      case Success(v) =>
        var d := Create(u, v);
        CreatedIsClean(u, data, v);
        var id := InsertDictionary(d);
        r := Created(Summary(id, d));
    }

    /** `DictionaryDetailView.put`: owner only; the image search (skipped
      when a file is stored), then field validation, then a partial update. */
    method PutDictionary(u: UserId, id: DictionaryId, input: DictionaryInput,
                         imageService: string -> Option<string>)
      returns (r: Response<DictionarySummary>)
      requires Valid()
      modifies this
      ensures Valid()
      ensures WriteGate(old(dictionaries), u, id).Some? ==>
        r == Failed(WriteGate(old(dictionaries), u, id).value) && dictionaries == old(dictionaries)
      ensures WriteGate(old(dictionaries), u, id).None? ==>
        var d := old(dictionaries[id]);
        var data := WithCover(input, CoverLookupQuery(input, d.name, d.coverImageFile.Some?), imageService);
        match ValidateDictionary(data, false)
        case Failure(e) => r == Failed(BadRequest(InvalidDictionary(e))) && dictionaries == old(dictionaries)
        case Success(v) =>
          dictionaries == old(dictionaries)[id := Patched(d, v)] && r == Ok(Summary(id, Patched(d, v)))
      ensures users == old(users) && words == old(words)
      ensures purchases == old(purchases) && progress == old(progress)
    {
      var gate := WriteGate(dictionaries, u, id);
      if gate.Some? {
        return Failed(gate.value);
      }
      var d := dictionaries[id];
      var data := WithCover(input, CoverLookupQuery(input, d.name, d.coverImageFile.Some?), imageService);
      match ValidateDictionary(data, false)
      case Failure(e) =>
        r := Failed(BadRequest(InvalidDictionary(e)));
      case Success(v) =>
        var updated := Serializers.Update(d, v);
        PatchedColumnsValid(d, data, v);
        ReplaceDictionary(id, updated);
        r := Ok(Summary(id, updated));
    }

    /** `DictionaryDetailView.delete`: owner only; the dictionary goes with
      its words, the purchases of it and the progress records on it, and its
      words leave every learned set. */
    method DeleteDictionary(u: UserId, id: DictionaryId) returns (r: Response<()>)
      requires Valid()
      modifies this
      ensures Valid()
      ensures WriteGate(old(dictionaries), u, id).Some? ==>
        r == Failed(WriteGate(old(dictionaries), u, id).value) &&
        dictionaries == old(dictionaries) && words == old(words) &&
        purchases == old(purchases) && progress == old(progress)
      ensures WriteGate(old(dictionaries), u, id).None? ==>
        r == NoContent &&
        dictionaries == old(dictionaries) - {id} &&
        words == RemainingWords(old(words), id) &&
        purchases == RemainingPurchases(old(purchases), id) &&
        progress == RemainingProgress(old(progress), id, WordsOf(old(words), id).Keys)
      ensures users == old(users)
    {
      var gate := WriteGate(dictionaries, u, id);
      if gate.Some? {
        return Failed(gate.value);
      }
      RemoveDictionary(id);
      r := NoContent;
    }

    /** `WordCreateView.post` with `WordSerializer.create`: the image search,
      then field validation (400), then the requester's dictionary named by
      `dictionary_id`; when there is none the lookup error reaches the
      framework (500) and no word is added. */
    method CreateWord(u: UserId, input: WordInput, dictionaryId: Option<int>,
                      imageService: string -> Option<string>)
      returns (r: Response<(WordId, Word)>)
      requires Valid()
      modifies this
      ensures Valid()
      ensures match WordCreation(old(dictionaries), u, input, dictionaryId, imageService)
              case Failure(e) => r == Failed(e) && words == old(words)
              case Success(w) => r.Created? && r.body.0 !in old(words) && r.body.1 == w &&
                                 words == old(words)[r.body.0 := w]
      ensures users == old(users) && dictionaries == old(dictionaries)
      ensures purchases == old(purchases) && progress == old(progress)
    {
      match WordCreation(dictionaries, u, input, dictionaryId, imageService)
      case Failure(e) =>
        r := Failed(e);
      case Success(w) =>
        var id := InsertWord(w);
        r := Created((id, w));
    }

    /** `PurchaseDictionaryView.post`: the first failing check and no change,
      or exactly one new purchase. */
    method BuyDictionary(u: UserId, id: DictionaryId, code: Option<Json>, accessType: Option<Json>)
      returns (r: Response<Purchase>)
      requires Valid() && u in users
      modifies this
      ensures Valid()
      ensures var rejection := PurchaseRejection(old(dictionaries), old(purchases), u, id, code);
              (rejection.Some? ==> r == Failed(rejection.value) && purchases == old(purchases)) &&
              (rejection.None? ==>
                 var p := Purchase(u, id, ResolveAccessType(accessType));
                 r == Created(p) && p !in old(purchases) && purchases == old(purchases) + {p} &&
                 CanAccess(dictionaries, purchases, u, id))
      ensures users == old(users) && dictionaries == old(dictionaries)
      ensures words == old(words) && progress == old(progress)
    {
      var rejection := PurchaseRejection(dictionaries, purchases, u, id, code);
      if rejection.Some? {
        return Failed(rejection.value);
      }
      var p := Purchase(u, id, ResolveAccessType(accessType));
      PurchaseThenRepeat(dictionaries, purchases, u, id, code, accessType);
      InsertPurchase(p);
      r := Created(p);
    }

    /** `LearningProgress.objects.get_or_create`: the record of the pair,
      created with no learned words when there is none. */
    method ProgressRecord(u: UserId, id: DictionaryId) returns (created: bool)
      requires Valid() && u in users && id in dictionaries
      requires CanAccess(dictionaries, purchases, u, id)
      modifies this
      ensures Valid()
      ensures created == ((u, id) !in old(progress))
      ensures progress == if created then old(progress)[(u, id) := {}] else old(progress)
      ensures users == old(users) && dictionaries == old(dictionaries)
      ensures words == old(words) && purchases == old(purchases)
    {
      created := (u, id) !in progress;
      if created {
        SetProgress((u, id), {});
      }
    }

    /** `LearningProgressView.get`: after the access checks the record is
      fetched, or created empty, and reported. */
    method GetProgress(u: UserId, id: DictionaryId) returns (r: Response<ProgressView>)
      requires Valid() && u in users
      modifies this
      ensures Valid()
      ensures ReadGate(old(dictionaries), old(purchases), u, id).Some? ==>
        r == Failed(ReadGate(old(dictionaries), old(purchases), u, id).value) && progress == old(progress)
      ensures ReadGate(old(dictionaries), old(purchases), u, id).None? ==>
        (u, id) in progress &&
        progress == (if (u, id) in old(progress) then old(progress) else old(progress)[(u, id) := {}]) &&
        r == Ok(Report(words, id, progress[(u, id)]))
      ensures users == old(users) && dictionaries == old(dictionaries)
      ensures words == old(words) && purchases == old(purchases)
    {
      var gate := ReadGate(dictionaries, purchases, u, id);
      if gate.Some? {
        return Failed(gate.value);
      }
      var _ := ProgressRecord(u, id);
      r := Ok(Report(words, id, progress[(u, id)]));
    }

    /** `LearningProgressView.post` (and `put`, which calls it): after the
      access checks the record is fetched or created; then the learned list
      is checked and, if valid, replaces the learned set. The answer is 201
      exactly when the record was just created. A rejected list still leaves
      the record created. */
    method PostProgress(u: UserId, id: DictionaryId, learned: Option<seq<int>>)
      returns (r: Response<ProgressView>)
      requires Valid() && u in users
      modifies this
      ensures Valid()
      ensures ReadGate(old(dictionaries), old(purchases), u, id).Some? ==>
        r == Failed(ReadGate(old(dictionaries), old(purchases), u, id).value) && progress == old(progress)
      ensures ReadGate(old(dictionaries), old(purchases), u, id).None? ==>
        var current := if (u, id) in old(progress) then old(progress)[(u, id)] else {};
        if learned.Some? && !ValidLearnedWords(words, learned.value) then
          r == Failed(BadRequest(InvalidLearnedWords)) && progress == old(progress)[(u, id) := current]
        else
          var view := Report(words, id, ProgressUpdate(current, learned));
          progress == old(progress)[(u, id) := ProgressUpdate(current, learned)] &&
          r == (if (u, id) in old(progress) then Ok(view) else Created(view))
      ensures users == old(users) && dictionaries == old(dictionaries)
      ensures words == old(words) && purchases == old(purchases)
    {
      var gate := ReadGate(dictionaries, purchases, u, id);
      if gate.Some? {
        return Failed(gate.value);
      }
      ghost var current := if (u, id) in progress then progress[(u, id)] else {};
      var created := ProgressRecord(u, id);
      assert progress == old(progress)[(u, id) := current] by {
        if !created {
          OverwriteSame(old(progress), (u, id));
        }
      }
      if learned.Some? && !ValidLearnedWords(words, learned.value) {
        return Failed(BadRequest(InvalidLearnedWords));
      }
      var updated := ProgressUpdate(progress[(u, id)], learned);
      if learned.Some? {
        LearnedWordsExist(words, learned.value, progress[(u, id)]);
      }
      SetProgress((u, id), updated);
      assert progress == old(progress)[(u, id) := updated] by {
        OverwriteTwice(old(progress), (u, id), current, updated);
      }
      var view := Report(words, id, updated);
      r := if created then Created(view) else Ok(view);
    }

    /** `DictionaryDetailView.get`. */
    function GetDictionary(u: UserId, id: DictionaryId): (r: Response<DictionaryView>)
      reads this
      ensures r == Failed(NotFound) <==> id !in dictionaries
      ensures r == Failed(Forbidden) <==> id in dictionaries && !CanAccess(dictionaries, purchases, u, id)
      ensures r.Ok? <==> id in dictionaries && CanAccess(dictionaries, purchases, u, id)
      ensures r.Ok? ==> r.body.id == id && r.body.name == dictionaries[id].name &&
                        r.body.isOwner == (dictionaries[id].owner == u) &&
                        r.body.isPurchased == HasPurchase(purchases, u, id)
      ensures r.Ok? ==> r.body == Serialize(id, dictionaries[id], words, purchases, Some(u))
    {
      match ReadGate(dictionaries, purchases, u, id)
      case Some(e) => Failed(e)
      case None =>
        HasPurchaseOfSomeType(purchases, u, id);
        Ok(Serialize(id, dictionaries[id], words, purchases, Some(u)))
    }

    /** `DictionaryWordsView.get`. */
    function GetWords(u: UserId, id: DictionaryId): (r: Response<map<WordId, Word>>)
      reads this
      ensures r == Failed(NotFound) <==> id !in dictionaries
      ensures r == Failed(Forbidden) <==> id in dictionaries && !CanAccess(dictionaries, purchases, u, id)
      ensures r.Ok? <==> id in dictionaries && CanAccess(dictionaries, purchases, u, id)
      ensures r.Ok? ==> forall w :: w in r.body <==> w in words && words[w].dictionary == id
      ensures r.Ok? ==> forall w :: w in r.body ==> r.body[w] == words[w]
    {
      match ReadGate(dictionaries, purchases, u, id)
      case Some(e) => Failed(e)
      case None => Ok(WordsOf(words, id))
    }

    /** `DictionaryListView.get`: the owned and bought dictionaries, each once. */
    function ListDictionaries(u: UserId): (r: map<DictionaryId, DictionaryView>)
      reads this
      ensures forall id :: id in r <==>
        id in dictionaries && (dictionaries[id].owner == u || HasPurchase(purchases, u, id))
      ensures forall id :: id in r ==> r[id].id == id && r[id].isOwner == (dictionaries[id].owner == u)
      ensures forall id :: id in r ==> r[id].isPurchased == HasPurchase(purchases, u, id)
      ensures forall id :: id in r ==> r[id] == Serialize(id, dictionaries[id], words, purchases, Some(u))
    {
      map id | id in dictionaries && (dictionaries[id].owner == u || HasPurchase(purchases, u, id)) ::
        HasPurchaseOfSomeType(purchases, u, id);
        Serialize(id, dictionaries[id], words, purchases, Some(u))
    }

    /** `MarketplaceView.get`: exactly the dictionaries for sale; the flags
      are false for an anonymous requester. */
    function Marketplace(requester: Option<UserId>): (r: map<DictionaryId, DictionaryView>)
      reads this
      ensures forall id :: id in r <==> id in dictionaries && dictionaries[id].isForSale
      ensures forall id :: id in r ==> r[id].id == id && r[id].isOwner == IsOwner(requester, dictionaries[id])
      ensures requester.None? ==> forall id :: id in r ==> !r[id].isOwner && !r[id].isPurchased
      ensures forall id :: id in r ==> r[id].isPurchased == IsPurchased(requester, purchases, id)
      ensures forall id :: id in r ==> r[id] == Serialize(id, dictionaries[id], words, purchases, requester)
    {
      map id | id in dictionaries && dictionaries[id].isForSale ::
        Serialize(id, dictionaries[id], words, purchases, requester)
    }
  }
}
