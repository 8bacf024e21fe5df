# ChamLing backend core in Dafny

ChamLing is a Django REST backend for a marketplace of language-learning
dictionaries. Users register and create dictionaries of word/translation pairs.
An owner may put a dictionary on sale, and other users buy access to it with a
simulated payment code. The backend keeps one learning-progress record per user
and dictionary, holding the learned words and a completion percentage. A
management command seeds English-Russian dictionaries from a built-in list of
fifty words.

This project models the domain layer beneath the HTTP framework, in five modules:

- `Common` (`common.dfy`) holds the shared pieces:
  - `Option` and `Result`;
  - a small JSON value type for request fields whose type the handlers inspect;
  - ASCII lower-casing, whitespace trimming and the last-index search that `str.rsplit("@", 1)` performs.
- `Models` (`models.dfy`) holds the entities and their field defaults:
  - the email normalization `create_user` applies (Django's `BaseUserManager.normalize_email`, which is not in the repository: the stripped address with the part after its last `@` lower-cased, or the address as sent when it has no `@`);
  - `Purchase.ACCESS_CHOICES`;
  - `Dictionary.clean`;
  - `LearningProgress.get_progress_percentage`, with the percentage computed exactly and ties rounded to even.
- `Serializers` (`serializers.dfy`) holds the validation and presentation rules:
  - the profile's notification-time validators and its read-only fields;
  - the dictionary field rules and the for-sale rule of `validate`;
  - `create`, and the `setattr` loop of `update`, which is a method proved equal to a reference partial update;
  - the computed fields `cover_image_url`, `is_owner`, `word_count` and `is_purchased`;
  - word creation in the requester's dictionary;
  - the progress serializer's `create` and `update`.
- `Views` (`views.py`'s handlers) models the database as a `class Store`:
  - its fields are user, dictionary and word maps, a purchase set, and a progress map keyed by (user, dictionary), so the `unique_together` rule holds by construction;
  - every state-changing handler is a method that keeps the store's referential and business invariants (`Valid`);
  - each state-changing handler states its whole answer and new state through pure decision functions: the read and write gates (lookup first, then access), the registration and purchase check chains, the access-type fallback, the cover and word image lookups, and the delete cascade;
  - the read-only handlers are functions of the store, whose answers are the stored rows serialized for the requester.
- `Seeding` (`add_words_to_dictionaries.py`) models the command as nested loops over the store:
  - the outer loop runs over the dictionaries, the inner loop over the chosen entries;
  - each round inserts a row through a modelled `get_or_create`;
  - it is proved that every chosen entry is created;
  - it is proved that each English-Russian dictionary gains `min(count, available)` rows, all from the list and new to it case-insensitively;
  - no other dictionary or row changes;
  - the reported total is the sum of the per-dictionary counts.

The authenticated requester is an explicit `UserId` parameter (`Option<UserId>`
for the public marketplace). The image search service is a function parameter.
`random.sample` is a parameter constrained to return distinct positions of the
right number. The order in which the command visits the dictionaries is a
parameter too.

Where the code and its documentation disagree, the model follows the code:

- `DictionarySerializer.validate` skips the for-sale rule whenever an instance
  is updated. An update can therefore put a dictionary on sale without a
  description (`Serializers.UpdateCanBreakClean`).
- The learned-word ids of a progress body are checked only for existence, not
  for membership of the dictionary. The percentage can therefore exceed 100
  (`Serializers.ForeignWordsExceedHundred`).
- Creating a word with a `dictionary_id` that names no dictionary of the
  requester ends in an uncaught lookup error (500), not a 403
  (`Views.WordCreation`).
- A `GET` of progress creates an empty record instead of answering 404.

## Model

| member | source | states |
|---|---|---|
| Models.NewUser | cham_ling/api/models.py:27-46 | a registered user keeps the given username, stores the email as `normalize_email` returns it, has balance 0 and notifications off, and is notified at 9:00 |
| Models.NormalizeEmail | cham_ling/api/views.py:84-88 | an address without `@` once stripped is kept exactly as sent; otherwise it is stripped, has the same length, and only the part after its last `@` is lower-cased |
| Models.NormalizeEmailIdempotent | cham_ling/api/views.py:84-88 | a stored address normalizes to itself |
| Models.NormalizeEmailExample | cham_ling/api/views.py:84-88 | "b@Mail" is stored as "b@mail": the local part keeps its case |
| Models.ParseAccessType | cham_ling/api/models.py:182-189 | a stored access type is accepted iff it is one of the two choice codes |
| Models.AccessTypeRoundTrip | cham_ling/api/models.py:182-185 | the code of an access type reads back as it, and any code that reads back is that type's code |
| Models.Clean | cham_ling/api/models.py:112-128 | passes iff a dictionary on sale has a name and a description; the name error iff on sale without a name; the description error iff on sale with a name and without a description |
| Models.ProgressPercentage | cham_ling/api/models.py:238-249 | 0 for a dictionary without words, otherwise an integer within half a point of 100·learned/total |
| Models.PercentageAtMostHundred | cham_ling/api/models.py:238-249 | learning at most as many words as the dictionary holds gives at most 100 |
| Models.PercentageAllLearned | cham_ling/api/models.py:238-249 | learning every word of a non-empty dictionary gives exactly 100 |
| Models.PercentageMonotonic | cham_ling/api/models.py:238-249 | for a fixed number of words the percentage never decreases as more are learned |
| Serializers.ValidateNotificationHour | cham_ling/api/serializers.py:58-62 | an hour is accepted, unchanged, iff 0 ≤ h ≤ 23 |
| Serializers.ValidateNotificationMinute | cham_ling/api/serializers.py:64-68 | a minute is accepted, unchanged, iff 0 ≤ m ≤ 59 |
| Serializers.ProfileErrors | cham_ling/api/serializers.py:58-68 | each notification field is reported iff it was sent out of range |
| Serializers.UpdateProfile | cham_ling/api/serializers.py:46-68 | fails iff some field is invalid, naming all such fields; otherwise only the three notification settings change, each to the sent value, and a valid time stays valid |
| Serializers.DictionaryFieldErrors | cham_ling/api/models.py:96-105 | each field is reported iff its rule fails: the name (100) and each language (50) when missing on create or sent and, stripped, empty, too long or holding a null character; the description when it holds a null character; the price outside ±999999; temporary days outside 0..2147483647; the cover link over 200 or holding a null character once stripped; an empty update body has no errors |
| Serializers.Cleaned | cham_ling/api/serializers.py:160-171 | reference definition of the validated values (the text fields stripped, as `CharField` does by default); its property is Serializers.CleanedIdempotent |
| Serializers.CleanedIdempotent | cham_ling/api/serializers.py:160-171 | cleaning a cleaned body changes nothing |
| Serializers.ValidateForSale | cham_ling/api/serializers.py:282-287 | with no instance, a body on sale is rejected for a missing name first, then for a missing description; with an instance nothing is rejected |
| Serializers.ValidateDictionary | cham_ling/api/serializers.py:266-287 | the field errors exactly, when there are any; with no field error, fails iff the for-sale rule fails on the stripped body, with that rule's error; on success the stripped body; on update success iff the fields are valid; a created body on sale has a name and a description |
| Serializers.Create | cham_ling/api/serializers.py:235-246 | the requester owns the new dictionary; each field is the validated value or the model default: price 0, not on sale, 7 temporary days, no cover file when none or null is sent |
| Serializers.CreatedIsClean | cham_ling/api/serializers.py:282-286 | a dictionary created from a valid body meets the column limits and passes `clean` |
| Serializers.PatchedColumnsValid | cham_ling/api/serializers.py:248-264 | an update from a valid body keeps the column limits |
| Serializers.UpdateCanBreakClean | cham_ling/api/serializers.py:283-286 | an update body putting a dictionary without a description on sale passes validation, and the result fails `clean` |
| Serializers.Patched | cham_ling/api/serializers.py:261-264 | reference definition of a partial update (every sent field replaced, a null cover file clearing the stored one, every other field and the owner kept); its properties are Serializers.PatchedIdempotent, Serializers.PatchedColumnsValid and the contract of Serializers.Update |
| Serializers.AssignmentsPatch | cham_ling/api/serializers.py:261-262 | applying the validated items one `setattr` at a time gives the reference partial update |
| Serializers.Update | cham_ling/api/serializers.py:248-264 | the loop over the validated items returns the reference partial update: the sent fields replaced, all others kept |
| Serializers.PatchedIdempotent | cham_ling/api/serializers.py:248-264 | repeating a partial update changes nothing more, and an empty body changes nothing |
| Serializers.CoverImageUrl | cham_ling/api/serializers.py:173-190 | the uploaded file first, else the non-empty link, else none |
| Serializers.IsOwner | cham_ling/api/serializers.py:192-205 | true iff there is a requester and it is the owner |
| Serializers.HasPurchaseOfSomeType | cham_ling/api/serializers.py:219-233 | a purchase exists for the pair iff one of either access type does |
| Serializers.IsPurchased | cham_ling/api/serializers.py:219-233 | true iff there is a requester holding a purchase of the dictionary |
| Serializers.WordsOf | cham_ling/api/serializers.py:207-217 | exactly the rows of that dictionary, unchanged |
| Serializers.WordCount | cham_ling/api/serializers.py:207-217 | zero exactly when no word belongs to the dictionary |
| Serializers.Serialize | cham_ling/api/serializers.py:160-233 | every stored field (id, owner, name, description, both languages, price, temporary access and days, sale flag, cover link) is copied, and the four computed fields are as defined |
| Serializers.WordFieldErrors | cham_ling/api/models.py:153-156 | the word and the translation are each accepted iff sent and, stripped, non-empty within 100 characters and free of null characters; the image link iff absent or, stripped, within 200 and free of null characters; the example iff absent or free of null characters |
| Serializers.NewWord | cham_ling/api/serializers.py:312-333 | the inserted row is in the given dictionary with the stripped values, and an absent link or example becomes empty |
| Serializers.OwnedDictionary | cham_ling/api/serializers.py:330-331 | found iff `dictionary_id` is sent and names a dictionary of the requester |
| Serializers.ValidLearnedWords | cham_ling/api/serializers.py:356-362 | a learned-word list is accepted iff no id is negative and the ids, as a set, are all existing words |
| Serializers.LearnedWordsExist | cham_ling/api/serializers.py:356-362 | a list is accepted iff no id is negative and the learned set an update stores from it holds only existing words |
| Serializers.ProgressCreate | cham_ling/api/serializers.py:376-399 | a non-empty list replaces the learned set; an empty or absent list leaves it |
| Serializers.ProgressUpdate | cham_ling/api/serializers.py:401-412 | a sent list, even an empty one, replaces the learned set; an absent list leaves it |
| Serializers.EmptyListCreateKeepsUpdateClears | cham_ling/api/serializers.py:395-409 | on an empty list, create keeps the learned set and update clears it |
| Serializers.Report | cham_ling/api/serializers.py:364-374 | the report carries the learned set, its size and the dictionary's word count; its percentage is `ProgressPercentage` of the two counts: 0 for an empty dictionary, otherwise within half a point of 100·learned/total |
| Serializers.ReportAtMostHundred | cham_ling/api/serializers.py:372-374 | learning only the dictionary's own words reports at most 100 % |
| Serializers.ForeignWordsExceedHundred | cham_ling/api/serializers.py:356-374 | for a one-word dictionary, its own word and one word of another dictionary are accepted and report 200 % |
| Views.ReadGate | cham_ling/api/views.py:371-391 | 404 iff the dictionary is missing; 403 iff it exists and the user neither owns nor bought it; passes iff the user owns or bought it |
| Views.WriteGate | cham_ling/api/views.py:393-401 | 404 iff the dictionary is missing; 403 iff it exists and the user is not the owner; passes iff the user owns it |
| Views.BuyerReadsButCannotWrite | cham_ling/api/views.py:437-445 | a buyer who is not the owner passes the read gate and is refused by the write gate |
| Views.CanAccess | cham_ling/api/views.py:374-381 | reference definition of read access (the owner, or a user holding a purchase); Views.ReadGate and Views.ProgressReadable are stated through it |
| Views.RegistrationRejection | cham_ling/api/views.py:66-82 | a missing field first, then an email equal to a stored one as sent, then a taken username, each iff the earlier checks passed; accepted iff all pass |
| Views.RegistrationAdmitsStoredDuplicate | cham_ling/api/views.py:72-88 | after "b@Mail" registered, a second registration with "b@Mail" passes the email check and stores the same normalized address again |
| Views.PurchaseRejection | cham_ling/api/views.py:538-577 | 404, then a missing code, a code other than "1013", not on sale, own dictionary, already bought; each iff the earlier checks passed; accepted iff all pass |
| Views.ResolveAccessType | cham_ling/api/views.py:580-583 | temporary iff "temporary" is sent; absent or "permanent" gives permanent, and so does any other value |
| Views.PurchaseThenRepeat | cham_ling/api/views.py:571-599 | after an accepted purchase the buyer may read the dictionary, and the same request is refused as already bought |
| Views.CoverLookupQuery | cham_ling/api/views.py:406-413 | the search is skipped iff a file is uploaded or stored or a link is sent; otherwise its query is the sent name or the fallback |
| Views.NullFileClearsStoredCover | cham_ling/api/views.py:406-417 | a PUT sending the cover file as null on a dictionary with a stored file skips the search, clears the file, and the cover URL falls back to the link or none |
| Views.WithCover | cham_ling/api/views.py:198-206 | only the cover link may change; a non-empty search result becomes the link; no result leaves the body as sent |
| Views.WordImageQuery | cham_ling/api/views.py:256-257 | the search runs iff no image link is sent, with the word or "language" as the query |
| Views.WithImage | cham_ling/api/views.py:256-260 | only the image link may change; a non-empty search result becomes the link; no result leaves the body as sent |
| Views.WordCreation | cham_ling/api/views.py:254-269 | 400 with the field errors iff the body is invalid; 500 iff it is valid and names no dictionary of the requester; otherwise a new row in that dictionary |
| Views.Summary | cham_ling/api/views.py:419-430 | the update answer carries the id, the name and the resolved cover URL |
| Views.RemainingWords | cham_ling/api/models.py:148-152 | deleting a dictionary leaves exactly the other dictionaries' words, unchanged |
| Views.RemainingPurchases | cham_ling/api/models.py:187-188 | deleting a dictionary leaves exactly the purchases of other dictionaries |
| Views.RemainingProgress | cham_ling/api/models.py:219-221 | deleting a dictionary leaves exactly the other dictionaries' progress records, with the deleted words removed from their learned sets |
| Views.DeleteCascade | cham_ling/api/views.py:447 | reference definition of what `dictionary.delete()` removes; its properties are Views.DeleteLeavesNoTrace and Views.DeleteConsistent, and Views.Store.DeleteDictionary is stated through it |
| Views.AddUserConsistent | cham_ling/api/views.py:72-88 | a user with an unused username keeps the store consistent (emails need not be unique) |
| Views.ReplaceUserConsistent | cham_ling/api/serializers.py:46-68 | a profile change that keeps the account and a valid time keeps the store consistent |
| Views.AddDictionaryConsistent | cham_ling/api/serializers.py:235-246 | a new dictionary of an existing user within the column limits keeps the store consistent |
| Views.ReplaceDictionaryConsistent | cham_ling/api/views.py:415-417 | an update keeping the owner and the column limits keeps the store consistent |
| Views.DeleteLeavesNoTrace | cham_ling/api/views.py:447 | after a delete, no word, purchase, progress record or learned set refers to the dictionary or its words |
| Views.DeleteConsistent | cham_ling/api/views.py:447 | the delete cascade keeps the store consistent |
| Views.AddWordConsistent | cham_ling/api/serializers.py:331-333 | a word of an existing dictionary keeps the store consistent |
| Views.PurchaseAddedUnique | cham_ling/api/views.py:571-590 | a purchase of a pair without one keeps at most one purchase per pair |
| Views.AddPurchaseConsistent | cham_ling/api/views.py:586-590 | a purchase that passed the checks keeps the store consistent |
| Views.SetProgressConsistent | cham_ling/api/models.py:219-228 | one record per pair, for a readable dictionary, with existing words, keeps the store consistent |
| Views.Store.Register | cham_ling/api/views.py:61-94 | the first failing check and no change; otherwise exactly one new user with the defaults and the normalized email under a fresh id |
| Views.Store.PutProfile | cham_ling/api/views.py:653-676 | 400 naming the invalid fields and no change; otherwise the updated profile, with only that user changed |
| Views.Store.CreateDictionary | cham_ling/api/views.py:194-224 | image search, then validation: 400 and no change, or exactly one new dictionary owned by the requester and its summary |
| Views.Store.PutDictionary | cham_ling/api/views.py:393-435 | the write gate's error and no change; otherwise the image search and validation, then 400 and no change, or the partial update of that dictionary alone (a null cover file clears the stored one) |
| Views.Store.DeleteDictionary | cham_ling/api/views.py:437-453 | the write gate's error and no change; otherwise 204, with the dictionary, its words, its purchases and its progress removed and its words taken out of every learned set |
| Views.Store.CreateWord | cham_ling/api/views.py:254-269 | the word-create outcome; on success exactly one new row under a fresh id, otherwise no change |
| Views.Store.BuyDictionary | cham_ling/api/views.py:538-605 | the first failing check and no new purchase; otherwise exactly one new purchase, which gives the buyer read access |
| Views.Store.ProgressRecord | cham_ling/api/views.py:729-734 | `created` iff the pair had no record; an empty record is added then and nothing else changes |
| Views.Store.GetProgress | cham_ling/api/views.py:710-743 | the read gate's error and no change; otherwise the record exists afterwards (created empty if it was missing) and is reported |
| Views.Store.PostProgress | cham_ling/api/views.py:745-811 | the read gate's error and no change; an invalid list gives 400 but leaves the record created; otherwise the learned set as `update` sets it, with 201 iff the record was just created and 200 otherwise |
| Views.Store.GetDictionary | cham_ling/api/views.py:371-391 | 404, 403 or 200 exactly as the read gate says; the body is the dictionary serialized for the user, reporting ownership and purchase |
| Views.Store.GetWords | cham_ling/api/views.py:481-501 | 404, 403 or 200 exactly as the read gate says; the body is exactly the dictionary's words |
| Views.Store.ListDictionaries | cham_ling/api/views.py:292-306 | exactly the dictionaries owned or bought by the user, each once, each serialized for the user with the correct flags |
| Views.Store.Marketplace | cham_ling/api/views.py:330-334 | exactly the dictionaries on sale, each serialized for the requester; purchase as `get_is_purchased` says; both flags false for an anonymous requester |
| Seeding.CatalogUniqueWords | cham_ling/api/management/commands/add_words_to_dictionaries.py:29-80 | the built-in list has fifty entries with pairwise different words |
| Seeding.Filter | cham_ling/api/management/commands/add_words_to_dictionaries.py:93 | an entry is kept iff its lower-cased word is not excluded |
| Seeding.Available | cham_ling/api/management/commands/add_words_to_dictionaries.py:89-93 | reference definition of the entries still missing from a dictionary; its properties are Seeding.AvailableSpec and Seeding.AvailableIsNew |
| Seeding.AvailableSpec | cham_ling/api/management/commands/add_words_to_dictionaries.py:89-93 | the available entries are exactly the list entries whose word the dictionary lacks in any case, each word once |
| Seeding.AvailableIsNew | cham_ling/api/management/commands/add_words_to_dictionaries.py:89-93 | no available word is stored verbatim in the dictionary |
| Seeding.PrefixSampler | cham_ling/api/management/commands/add_words_to_dictionaries.py:96 | a sampler meeting `random.sample`'s promise exists |
| Seeding.SeedWord | cham_ling/api/management/commands/add_words_to_dictionaries.py:100-107 | the new row takes the entry's word, translation and example, with an empty image link |
| Seeding.SeededNext | cham_ling/api/management/commands/add_words_to_dictionaries.py:96-109 | before each round, the chosen word is in no row of the dictionary |
| Seeding.SeededAll | cham_ling/api/management/commands/add_words_to_dictionaries.py:98-109 | after the inner loop: old rows kept, every new row made from a chosen entry, other dictionaries untouched, exactly one row per chosen entry |
| Seeding.GetOrCreateSeedWord | cham_ling/api/management/commands/add_words_to_dictionaries.py:100-107 | inserts iff the dictionary holds no row with exactly that word, under a fresh id; otherwise no change |
| Seeding.SeedRound | cham_ling/api/management/commands/add_words_to_dictionaries.py:99-109 | each round creates its row and advances the inner-loop state |
| Seeding.SeedDictionary | cham_ling/api/management/commands/add_words_to_dictionaries.py:98-109 | `added_count` equals the number of chosen entries; the rows are as SeededAll states |
| Seeding.IsEnRu | cham_ling/api/management/commands/add_words_to_dictionaries.py:86-87 | reference definition of the dictionaries the command seeds (English to Russian, case-insensitively); Seeding.ExpectedSpec and Seeding.SeedNextDictionary are stated through it |
| Seeding.Expected | cham_ling/api/management/commands/add_words_to_dictionaries.py:96 | reference definition of the rows one dictionary gains; its properties are Seeding.ExpectedSpec and Seeding.ExpectedTotalBound |
| Seeding.ExpectedSpec | cham_ling/api/management/commands/add_words_to_dictionaries.py:86-96 | an English-Russian dictionary gets the count or all available entries, whichever is smaller; any other dictionary, or a negative count, gets none |
| Seeding.ExpectedTotalBound | cham_ling/api/management/commands/add_words_to_dictionaries.py:82-112 | the total is at most count times the number of dictionaries |
| Seeding.SeedEnRu | cham_ling/api/management/commands/add_words_to_dictionaries.py:89-112 | a negative count fails at the sample with no change; otherwise the expected number of rows is added |
| Seeding.SeedNextDictionary | cham_ling/api/management/commands/add_words_to_dictionaries.py:84-117 | a dictionary of another language pair is skipped; fails iff the count is negative and the dictionary is English-Russian |
| Seeding.SeedAll | cham_ling/api/management/commands/add_words_to_dictionaries.py:82-117 | the outer loop fails only for a negative count and an English-Russian dictionary, with no change; otherwise the total and the rows are as expected |
| Seeding.AddWordsToDictionaries | cham_ling/api/management/commands/add_words_to_dictionaries.py:16-123 | stops at once iff there is no dictionary; the sample fails iff the count is negative and some dictionary is English-Russian; otherwise each dictionary gains exactly its expected rows, every new row is a list entry new to its English-Russian dictionary, old rows are kept, and the total is the sum of the counts |

## Left out

- The image search (`get_unsplash_image`) is a network call. It is the `imageService` parameter. Its timeout and error swallowing appear only as "no result".
- Authentication is left out: JWT issuance and checking, login (`LoginView`, `LoginSerializer`, the custom backend) and password hashing. The requester is an explicit parameter. `create_user`'s email normalization is modelled (`Models.NormalizeEmail`); its Unicode (NFKC) normalization of the username is not, so two usernames that differ only in compatibility forms count as different here.
- Emails are not unique in the model, as in the code: the duplicate check compares the address as sent with the stored, normalized ones, so a case variant of a stored domain is admitted and stored again (`Views.RegistrationAdmitsStoredDuplicate`). Logging in with such an address is not modelled; the custom backend looks it up with `get`, which raises when two rows match.
- File storage and `build_absolute_uri` are left out. An uploaded cover is a file reference, and `cover_image_url` is tagged as a file or a link rather than turned into an absolute URL.
- The create answer's extra `cover_image` key is not modelled. It is the URL or the link, both derivable from the summary's cover URL and the stored dictionary.
- The catch-all 500 of the purchase handler is not modelled, because none of the modelled steps raises. The uncaught lookup error of word creation is modelled as `ServerError`.
- Request fields are typed. A body field of the wrong JSON type (a string hour, a numeric name) is not modelled, except for the payment code and the access type, which are `Json` values.
- URL syntax and image-format validation are not modelled. Only the length limits are.
- Decimal places of prices and balances: amounts are whole numbers of hundredths.
- Timestamps (`created_at`, `purchased_at`, `last_updated`) are not modelled. Neither are the answer fields built from them.
- The profile `GET` is a plain read and is not modelled.
- The command's console messages are not modelled. The total is the `Seeded` result.
- `--count` parsing is not modelled. `DefaultCount` records its default.
- Concurrency is left out: races between requests and transactions. Every operation is sequential.
- Configuration, routing, admin registration, `create_test_dictionaries` and the tests are not part of this model.
- `random.sample` is the `sample` parameter. It is constrained only by what `random.sample` promises: `k` distinct positions of the population.
- `Dictionary.objects.all()`'s order is the `order` parameter, a duplicate-free listing of the dictionaries.
- `Common.Lower` is ASCII only and `Common.Trim` strips ASCII whitespace only. Python's Unicode `lower` and `strip` are not modelled.
- Models.ProgressPercentage computes 100·learned/total exactly and rounds ties to even. Python computes a floating-point quotient first. The contract only promises a nearest integer, which the floating-point result also meets.
- Seeding.Available and Seeding.Expected have no postconditions of their own. Their properties are stated in the lemmas Seeding.AvailableSpec and Seeding.ExpectedSpec.
- Seeding.SeedDictionary states its final rows through the predicate `SeededSoFar`, and Seeding.SeededAll spells that predicate out.
- Seeding.AddWordsToDictionaries states how many rows each dictionary gains and that each is a list entry new to it. It does not state that the new words of one dictionary are pairwise distinct.
