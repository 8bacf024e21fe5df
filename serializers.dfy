/** The request-body validation and the computed response fields of the REST
    serializers: the profile settings, dictionaries (field rules, the for-sale
    rule, partial update, the cover-image priority, ownership and purchase
    flags), words, and learning progress. A request body is modelled with one
    `Option` per field the serializer knows: `None` when the key is absent. */
module Serializers {
  import opened Common
  import opened Models

  // ---------------------------------------------------------------- profile

  function ValidateNotificationHour(value: int): (r: Option<int>)
    ensures r.Some? <==> 0 <= value <= 23
    ensures r.Some? ==> r.value == value
  {
    if 0 <= value <= 23 then Some(value) else None
  }

  function ValidateNotificationMinute(value: int): (r: Option<int>)
    ensures r.Some? <==> 0 <= value <= 59
    ensures r.Some? ==> r.value == value
  {
    if 0 <= value <= 59 then Some(value) else None
  }

  datatype ProfileField = NotificationHour | NotificationMinute

  /** A profile update body. `id`, `username`, `email` and `balance` are
      read-only fields of the serializer: they may be sent and are ignored. */
  datatype ProfileInput = ProfileInput(
    id: Option<int>,
    username: Option<string>,
    email: Option<string>,
    balance: Option<Cents>,
    notificationsEnabled: Option<bool>,
    notificationHour: Option<int>,
    notificationMinute: Option<int>)

  /** The fields a partial profile update rejects; every field is checked. */
  function ProfileErrors(input: ProfileInput): (r: set<ProfileField>)
    ensures NotificationHour in r <==>
      input.notificationHour.Some? && !(0 <= input.notificationHour.value <= 23)
    ensures NotificationMinute in r <==>
      input.notificationMinute.Some? && !(0 <= input.notificationMinute.value <= 59)
  {
    (if input.notificationHour.Some? && ValidateNotificationHour(input.notificationHour.value).None?
     then {NotificationHour} else {})
    + (if input.notificationMinute.Some? && ValidateNotificationMinute(input.notificationMinute.value).None?
       then {NotificationMinute} else {})
  }

  /** A partial update of the profile: only the three notification settings
      can change, and only to the values supplied. */
  function UpdateProfile(u: User, input: ProfileInput): (r: Result<User, set<ProfileField>>)
    ensures r.Failure? <==> ProfileErrors(input) != {}
    ensures r.Failure? ==> r.error == ProfileErrors(input)
    ensures r.Success? ==>
      r.value.username == u.username && r.value.email == u.email && r.value.balance == u.balance
    ensures r.Success? ==>
      r.value.notificationsEnabled == input.notificationsEnabled.GetOr(u.notificationsEnabled) &&
      r.value.notificationHour == input.notificationHour.GetOr(u.notificationHour) &&
      r.value.notificationMinute == input.notificationMinute.GetOr(u.notificationMinute)
    ensures r.Success? && ValidNotificationTime(u) ==> ValidNotificationTime(r.value)
  {
    var errors := ProfileErrors(input);
    if errors != {} then Failure(errors)
    else
      Success(u.(notificationsEnabled := input.notificationsEnabled.GetOr(u.notificationsEnabled),
                 notificationHour := input.notificationHour.GetOr(u.notificationHour),
                 notificationMinute := input.notificationMinute.GetOr(u.notificationMinute)))
  }

  // ------------------------------------------------------------- dictionary

  /** Column limits: `max_length` of the text columns, `max_digits=6,
      decimal_places=2` of the price, and the range of a positive integer
      column. */
  const NameMaxLength: nat := 100
  const LangMaxLength: nat := 50
  const UrlMaxLength: nat := 200
  const MaxPriceCents: int := 999999
  const MaxPositiveInteger: int := 2147483647

  /** A dictionary body. `owner`, `id`, `created_at` and the computed fields
      are read-only and so do not appear. `temporaryDays` is `Some(None)`
      for an explicit null. `coverImageFile` is `Some(Some(f))` for an
      uploaded file and `Some(None)` for an explicit null (or an empty form
      value), which clears the stored file. */
  datatype DictionaryInput = DictionaryInput(
    name: Option<string>,
    description: Option<string>,
    sourceLang: Option<string>,
    targetLang: Option<string>,
    price: Option<Cents>,
    allowTemporaryAccess: Option<bool>,
    temporaryDays: Option<Option<int>>,
    isForSale: Option<bool>,
    coverImage: Option<string>,
    coverImageFile: Option<Option<FileRef>>)

  const NoChanges := DictionaryInput(None, None, None, None, None, None, None, None, None, None)

  /** `request.FILES.get('cover_image_file')` is truthy: a file was uploaded. */
  predicate FileUploaded(input: DictionaryInput) {
    input.coverImageFile.Some? && input.coverImageFile.value.Some?
  }

  datatype DictionaryField = Name | Description | SourceLang | TargetLang | Price | TemporaryDays | CoverImage

  datatype DictionaryError =
    | InvalidFields(fields: set<DictionaryField>)
    | SaleNeedsName
    | SaleNeedsDescription

  /** The character every text field refuses (`ProhibitNullCharactersValidator`). */
  const NullChar: char := '\0'

  /** A text field: a missing value is an error only when the field is
      required; a supplied value is stripped, then must be non-blank unless
      blank is allowed; a non-blank one must fit the column and hold no
      null character. */
  predicate CharFieldInvalid(v: Option<string>, required: bool, allowBlank: bool, maxLength: nat) {
    match v
    case None => required
    case Some(s) => if Trim(s) == "" then !allowBlank else |Trim(s)| > maxLength || NullChar in Trim(s)
  }

  /** A text field without a length limit (a `TextField(blank=True)`): only
      a null character in the stripped value is refused. */
  predicate TextFieldInvalid(v: Option<string>) {
    v.Some? && NullChar in Trim(v.value)
  }

  /** A non-blank text field is rejected iff it is missing while required,
      or sent and, stripped, empty, too long or holding a null character. */
  lemma NonBlankTextInvalid(v: Option<string>, required: bool, maxLength: nat)
    ensures CharFieldInvalid(v, required, false, maxLength) <==>
      (required && v.None?) ||
      (v.Some? && (!(0 < |Trim(v.value)| <= maxLength) || NullChar in Trim(v.value)))
  {
  }

  /** An optional text field that may be blank is rejected iff it is sent
      and, stripped, too long or holding a null character. */
  lemma OptionalTextInvalid(v: Option<string>, maxLength: nat)
    ensures CharFieldInvalid(v, false, true, maxLength) <==>
      v.Some? && (|Trim(v.value)| > maxLength || NullChar in Trim(v.value))
  {
  }

  /** The rule of each dictionary field (`creating` makes the name and both
      languages required). */
  predicate DictionaryFieldRejected(input: DictionaryInput, creating: bool, f: DictionaryField) {
    match f
    case Name => CharFieldInvalid(input.name, creating, false, NameMaxLength)
    case Description => TextFieldInvalid(input.description)
    case SourceLang => CharFieldInvalid(input.sourceLang, creating, false, LangMaxLength)
    case TargetLang => CharFieldInvalid(input.targetLang, creating, false, LangMaxLength)
    case Price => input.price.Some? && !(-MaxPriceCents <= input.price.value <= MaxPriceCents)
    case TemporaryDays =>
      input.temporaryDays.Some? && input.temporaryDays.value.Some? &&
      !(0 <= input.temporaryDays.value.value <= MaxPositiveInteger)
    case CoverImage => CharFieldInvalid(input.coverImage, false, true, UrlMaxLength)
  }

  /** The fields a dictionary body rejects. On create (`creating`) the name
      and both languages are required; a partial update requires nothing. */
  function DictionaryFieldErrors(input: DictionaryInput, creating: bool): (r: set<DictionaryField>)
    ensures Name in r <==>
      (creating && input.name.None?) ||
      (input.name.Some? &&
       (!(0 < |Trim(input.name.value)| <= NameMaxLength) || NullChar in Trim(input.name.value)))
    ensures SourceLang in r <==>
      (creating && input.sourceLang.None?) ||
      (input.sourceLang.Some? &&
       (!(0 < |Trim(input.sourceLang.value)| <= LangMaxLength) || NullChar in Trim(input.sourceLang.value)))
    ensures TargetLang in r <==>
      (creating && input.targetLang.None?) ||
      (input.targetLang.Some? &&
       (!(0 < |Trim(input.targetLang.value)| <= LangMaxLength) || NullChar in Trim(input.targetLang.value)))
    ensures Price in r <==> input.price.Some? && !(-MaxPriceCents <= input.price.value <= MaxPriceCents)
    ensures TemporaryDays in r <==>
      input.temporaryDays.Some? && input.temporaryDays.value.Some? &&
      !(0 <= input.temporaryDays.value.value <= MaxPositiveInteger)
    ensures Description in r <==> input.description.Some? && NullChar in Trim(input.description.value)
    ensures CoverImage in r <==>
      input.coverImage.Some? &&
      (|Trim(input.coverImage.value)| > UrlMaxLength || NullChar in Trim(input.coverImage.value))
    ensures r == {} && creating ==>
      input.name.Some? && input.sourceLang.Some? && input.targetLang.Some?
    ensures r == {} && input.name.Some? ==> 0 < |Trim(input.name.value)| <= NameMaxLength
    ensures r == {} && input.price.Some? ==> -MaxPriceCents <= input.price.value <= MaxPriceCents
    ensures !creating && input == NoChanges ==> r == {}
  {
    var r := set f | f in {Name, Description, SourceLang, TargetLang, Price, TemporaryDays, CoverImage} &&
                     DictionaryFieldRejected(input, creating, f);
    TextFieldRules(input, creating, r);
    r
  }

  /** The text-field half of `DictionaryFieldErrors`'s contract. */
  lemma TextFieldRules(input: DictionaryInput, creating: bool, r: set<DictionaryField>)
    requires forall f :: f in r <==> DictionaryFieldRejected(input, creating, f)
    ensures Name in r <==>
      (creating && input.name.None?) ||
      (input.name.Some? &&
       (!(0 < |Trim(input.name.value)| <= NameMaxLength) || NullChar in Trim(input.name.value)))
    ensures SourceLang in r <==>
      (creating && input.sourceLang.None?) ||
      (input.sourceLang.Some? &&
       (!(0 < |Trim(input.sourceLang.value)| <= LangMaxLength) || NullChar in Trim(input.sourceLang.value)))
    ensures TargetLang in r <==>
      (creating && input.targetLang.None?) ||
      (input.targetLang.Some? &&
       (!(0 < |Trim(input.targetLang.value)| <= LangMaxLength) || NullChar in Trim(input.targetLang.value)))
    ensures Description in r <==> input.description.Some? && NullChar in Trim(input.description.value)
    ensures CoverImage in r <==>
      input.coverImage.Some? &&
      (|Trim(input.coverImage.value)| > UrlMaxLength || NullChar in Trim(input.coverImage.value))
  {
    assert DictionaryFieldRejected(input, creating, Name) <==> Name in r;
    NonBlankTextInvalid(input.name, creating, NameMaxLength);
    NonBlankTextInvalid(input.sourceLang, creating, LangMaxLength);
    NonBlankTextInvalid(input.targetLang, creating, LangMaxLength);
    OptionalTextInvalid(input.coverImage, UrlMaxLength);
  }

  function TrimField(v: Option<string>): Option<string> {
    match v
    case None => None
    case Some(s) => Some(Trim(s))
  }

  /** The validated values: text fields stripped, everything else as sent. */
  function Cleaned(input: DictionaryInput): DictionaryInput {
    input.(name := TrimField(input.name),
           description := TrimField(input.description),
           sourceLang := TrimField(input.sourceLang),
           targetLang := TrimField(input.targetLang),
           coverImage := TrimField(input.coverImage))
  }

  /** Stripping a stripped field changes nothing. */
  lemma TrimFieldIdempotent(v: Option<string>)
    ensures TrimField(TrimField(v)) == TrimField(v)
  {
    if v.Some? {
      TrimStripped(Trim(v.value));
    }
  }

  /** Cleaning a cleaned body changes nothing: stripped text stays stripped. */
  lemma {:induction false} CleanedIdempotent(input: DictionaryInput)
    ensures Cleaned(Cleaned(input)) == Cleaned(input)
  {
    TrimFieldIdempotent(input.name);
    TrimFieldIdempotent(input.description);
    TrimFieldIdempotent(input.sourceLang);
    TrimFieldIdempotent(input.targetLang);
    TrimFieldIdempotent(input.coverImage);
  }

  /** `DictionarySerializer.validate`: a body that puts a dictionary on sale
      needs a name and then a description, but only when no instance is
      being updated. */
  function ValidateForSale(data: DictionaryInput, hasInstance: bool): (r: Option<DictionaryError>)
    ensures hasInstance ==> r.None?
    ensures r == Some(SaleNeedsName) <==>
      !hasInstance && data.isForSale == Some(true) && !Present(data.name)
    ensures r == Some(SaleNeedsDescription) <==>
      !hasInstance && data.isForSale == Some(true) && Present(data.name) && !Present(data.description)
    ensures r.None? <==>
      hasInstance || data.isForSale != Some(true) || (Present(data.name) && Present(data.description))
  {
    if data.isForSale == Some(true) then
      if !Present(data.name) && !hasInstance then Some(SaleNeedsName)
      else if !Present(data.description) && !hasInstance then Some(SaleNeedsDescription)
      else None
    else None
  }

  /** `is_valid()`: the field rules first (all failing fields reported), then
      the object-level rule on the cleaned values. */
  function ValidateDictionary(input: DictionaryInput, creating: bool): (r: Result<DictionaryInput, DictionaryError>)
    ensures (r.Failure? && r.error.InvalidFields?) <==> DictionaryFieldErrors(input, creating) != {}
    ensures r.Failure? && r.error.InvalidFields? ==> r.error.fields == DictionaryFieldErrors(input, creating)
    ensures r.Success? ==> r.value == Cleaned(input)
    ensures !creating ==> (r.Success? <==> DictionaryFieldErrors(input, creating) == {})
    ensures creating && r.Success? && r.value.isForSale == Some(true) ==>
      Present(r.value.name) && Present(r.value.description)
    ensures DictionaryFieldErrors(input, creating) == {} ==>
      (r.Failure? <==> ValidateForSale(Cleaned(input), !creating).Some?) &&
      (r.Failure? ==> r.error == ValidateForSale(Cleaned(input), !creating).value)
  {
    var errors := DictionaryFieldErrors(input, creating);
    if errors != {} then Failure(InvalidFields(errors))
    else
      var data := Cleaned(input);
      match ValidateForSale(data, !creating)
      case Some(e) => Failure(e)
      case None => Success(data)
  }

  /** The column constraints every stored dictionary meets. */
  predicate ColumnsValid(d: Dictionary) {
    0 < |d.name| <= NameMaxLength &&
    0 < |d.sourceLang| <= LangMaxLength && 0 < |d.targetLang| <= LangMaxLength &&
    -MaxPriceCents <= d.price <= MaxPriceCents &&
    (d.temporaryDays.Some? ==> 0 <= d.temporaryDays.value <= MaxPositiveInteger) &&
    |d.coverImage| <= UrlMaxLength
  }

  /** `DictionarySerializer.create`: the validated values for the requester,
      every field not sent taking the model default. */
  function Create(owner: UserId, data: DictionaryInput): (d: Dictionary)
    ensures d.owner == owner
    ensures d.name == data.name.GetOr("") && d.description == data.description.GetOr("")
    ensures d.sourceLang == data.sourceLang.GetOr("") && d.targetLang == data.targetLang.GetOr("")
    ensures d.price == data.price.GetOr(0)
    ensures d.allowTemporaryAccess == data.allowTemporaryAccess.GetOr(false)
    ensures d.temporaryDays == data.temporaryDays.GetOr(Some(DefaultTemporaryDays))
    ensures d.isForSale == data.isForSale.GetOr(false)
    ensures d.coverImage == data.coverImage.GetOr("")
    ensures d.coverImageFile == data.coverImageFile.GetOr(None)
  {
    Dictionary(owner, data.name.GetOr(""), data.description.GetOr(""),
               data.sourceLang.GetOr(""), data.targetLang.GetOr(""), data.price.GetOr(0),
               data.allowTemporaryAccess.GetOr(false),
               data.temporaryDays.GetOr(Some(DefaultTemporaryDays)),
               data.isForSale.GetOr(false), data.coverImage.GetOr(""),
               data.coverImageFile.GetOr(None))
  }

  /** A dictionary created from a valid body meets the column constraints
      and the model's `clean` rule. */
  lemma {:induction false} CreatedIsClean(owner: UserId, input: DictionaryInput, data: DictionaryInput)
    requires ValidateDictionary(input, true) == Success(data)
    ensures ColumnsValid(Create(owner, data))
    ensures Clean(Create(owner, data)) == None
  {
    var errors := DictionaryFieldErrors(input, true);
    assert errors == {};
    assert CoverImage !in errors && SourceLang !in errors && TargetLang !in errors;
  }

  /** The reference meaning of a partial update: every supplied field takes
      its new value, every other field (and the owner) keeps its old one. */
  function Patched(d: Dictionary, data: DictionaryInput): Dictionary {
    Dictionary(d.owner, data.name.GetOr(d.name), data.description.GetOr(d.description),
               data.sourceLang.GetOr(d.sourceLang), data.targetLang.GetOr(d.targetLang),
               data.price.GetOr(d.price), data.allowTemporaryAccess.GetOr(d.allowTemporaryAccess),
               data.temporaryDays.GetOr(d.temporaryDays), data.isForSale.GetOr(d.isForSale),
               data.coverImage.GetOr(d.coverImage), data.coverImageFile.GetOr(d.coverImageFile))
  }

  /** An update from a valid body keeps the column constraints. */
  lemma {:induction false} PatchedColumnsValid(d: Dictionary, input: DictionaryInput, data: DictionaryInput)
    requires ColumnsValid(d)
    requires ValidateDictionary(input, false) == Success(data)
    ensures ColumnsValid(Patched(d, data))
  {
    var errors := DictionaryFieldErrors(input, false);
    assert errors == {};
    assert CoverImage !in errors && SourceLang !in errors && TargetLang !in errors;
    assert TemporaryDays !in errors;
  }

  /** Because the for-sale rule is skipped when an instance is updated, an
      update can put on sale a dictionary without a description, which the
      model's `clean` rejects. */
  lemma UpdateCanBreakClean()
    ensures var d := Dictionary(0, "Travel", "", "en", "ru", 0, false, Some(7), false, "", None);
            var input := NoChanges.(isForSale := Some(true));
            Clean(d) == None &&
            ValidateDictionary(input, false) == Success(input) &&
            Clean(Patched(d, input)) == Some(DescriptionRequiredForSale)
  {
  }

  /** One `setattr` of the update loop. */
  datatype Assignment =
    | SetName(name: string)
    | SetDescription(description: string)
    | SetSourceLang(sourceLang: string)
    | SetTargetLang(targetLang: string)
    | SetPrice(price: Cents)
    | SetAllowTemporaryAccess(allow: bool)
    | SetTemporaryDays(days: Option<int>)
    | SetIsForSale(forSale: bool)
    | SetCoverImage(url: string)
    | SetCoverImageFile(file: Option<FileRef>)

  function Assign(d: Dictionary, a: Assignment): Dictionary {
    match a
    case SetName(v) => d.(name := v)
    case SetDescription(v) => d.(description := v)
    case SetSourceLang(v) => d.(sourceLang := v)
    case SetTargetLang(v) => d.(targetLang := v)
    case SetPrice(v) => d.(price := v)
    case SetAllowTemporaryAccess(v) => d.(allowTemporaryAccess := v)
    case SetTemporaryDays(v) => d.(temporaryDays := v)
    case SetIsForSale(v) => d.(isForSale := v)
    case SetCoverImage(v) => d.(coverImage := v)
    case SetCoverImageFile(v) => d.(coverImageFile := v)
  }

  function AssignAll(d: Dictionary, assignments: seq<Assignment>): Dictionary
    decreases |assignments|
  {
    if assignments == [] then d
    else Assign(AssignAll(d, assignments[..|assignments| - 1]), assignments[|assignments| - 1])
  }

  /** The items of the validated data, in the order of the serializer's
      fields: one slot per field, empty when the field was not sent. */
  function Items(data: DictionaryInput): seq<Option<Assignment>> {
    [if data.name.Some? then Some(SetName(data.name.value)) else None,
     if data.description.Some? then Some(SetDescription(data.description.value)) else None,
     if data.sourceLang.Some? then Some(SetSourceLang(data.sourceLang.value)) else None,
     if data.targetLang.Some? then Some(SetTargetLang(data.targetLang.value)) else None,
     if data.price.Some? then Some(SetPrice(data.price.value)) else None,
     if data.allowTemporaryAccess.Some? then Some(SetAllowTemporaryAccess(data.allowTemporaryAccess.value)) else None,
     if data.temporaryDays.Some? then Some(SetTemporaryDays(data.temporaryDays.value)) else None,
     if data.isForSale.Some? then Some(SetIsForSale(data.isForSale.value)) else None,
     if data.coverImage.Some? then Some(SetCoverImage(data.coverImage.value)) else None,
     if data.coverImageFile.Some? then Some(SetCoverImageFile(data.coverImageFile.value)) else None]
  }

  /** The occupied slots, in order. */
  function Flatten(slots: seq<Option<Assignment>>): seq<Assignment> {
    if slots == [] then []
    else Flatten(slots[..|slots| - 1]) + (match slots[|slots| - 1] case None => [] case Some(a) => [a])
  }

  function Assignments(data: DictionaryInput): seq<Assignment> {
    Flatten(Items(data))
  }

  /** The body's first `n` fields applied, the others left as they were. */
  function PatchFirst(d: Dictionary, data: DictionaryInput, n: nat): Dictionary {
    Dictionary(d.owner,
               if n > 0 then data.name.GetOr(d.name) else d.name,
               if n > 1 then data.description.GetOr(d.description) else d.description,
               if n > 2 then data.sourceLang.GetOr(d.sourceLang) else d.sourceLang,
               if n > 3 then data.targetLang.GetOr(d.targetLang) else d.targetLang,
               if n > 4 then data.price.GetOr(d.price) else d.price,
               if n > 5 then data.allowTemporaryAccess.GetOr(d.allowTemporaryAccess) else d.allowTemporaryAccess,
               if n > 6 then data.temporaryDays.GetOr(d.temporaryDays) else d.temporaryDays,
               if n > 7 then data.isForSale.GetOr(d.isForSale) else d.isForSale,
               if n > 8 then data.coverImage.GetOr(d.coverImage) else d.coverImage,
               if n > 9 then data.coverImageFile.GetOr(d.coverImageFile) else d.coverImageFile)
  }

  function ApplySlot(d: Dictionary, slot: Option<Assignment>): Dictionary {
    match slot
    case None => d
    case Some(a) => Assign(d, a)
  }

  lemma PatchFirstStep(d: Dictionary, data: DictionaryInput, n: nat)
    requires 0 < n <= 10
    ensures PatchFirst(d, data, n) == ApplySlot(PatchFirst(d, data, n - 1), Items(data)[n - 1])
  {
  }

  /** Applying the occupied slots among the first `n` takes a dictionary to
      its first `n` fields patched. */
  lemma {:induction false} AssignFirst(d: Dictionary, data: DictionaryInput, n: nat)
    requires n <= 10
    ensures AssignAll(d, Flatten(Items(data)[..n])) == PatchFirst(d, data, n)
  {
    if n > 0 {
      var slots := Items(data)[..n];
      assert slots[..n - 1] == Items(data)[..n - 1];
      AssignFirst(d, data, n - 1);
      PatchFirstStep(d, data, n);
      var prefix := Flatten(slots[..n - 1]);
      match slots[n - 1]
      case None =>
        assert prefix + [] == prefix;
      case Some(a) =>
        assert (prefix + [a])[..|prefix + [a]| - 1] == prefix;
    }
  }

  /** Applying the items one after another is the reference partial update. */
  lemma {:induction false} AssignmentsPatch(d: Dictionary, data: DictionaryInput)
    ensures AssignAll(d, Assignments(data)) == Patched(d, data)
  {
    AssignFirst(d, data, 10);
    assert Items(data)[..10] == Items(data);
  }

  /** `DictionarySerializer.update`: one `setattr` per validated item. */
  method Update(instance: Dictionary, data: DictionaryInput) returns (r: Dictionary)
    ensures r == Patched(instance, data)
  {
    var assignments := Assignments(data);
    r := instance;
    var i := 0;
    while i < |assignments|
      invariant 0 <= i <= |assignments|
      invariant r == AssignAll(instance, assignments[..i])
    {
      assert assignments[..i + 1][..i] == assignments[..i];
      r := Assign(r, assignments[i]);
      i := i + 1;
    }
    assert assignments[..i] == assignments;
    AssignmentsPatch(instance, data);
  }

  /** Repeating a partial update changes nothing more, and an empty body
      changes nothing. */
  lemma PatchedIdempotent(d: Dictionary, data: DictionaryInput)
    ensures Patched(Patched(d, data), data) == Patched(d, data)
    ensures Patched(d, NoChanges) == d
  {
  }

  /** Where a cover image is served from. */
  datatype CoverUrl = FileUrl(file: FileRef) | LinkUrl(url: string)

  /** `get_cover_image_url`: the uploaded file first, then a non-empty link. */
  function CoverImageUrl(d: Dictionary): (r: Option<CoverUrl>)
    ensures d.coverImageFile.Some? ==> r == Some(FileUrl(d.coverImageFile.value))
    ensures d.coverImageFile.None? && d.coverImage != "" ==> r == Some(LinkUrl(d.coverImage))
    ensures r.None? <==> d.coverImageFile.None? && d.coverImage == ""
  {
    if d.coverImageFile.Some? then Some(FileUrl(d.coverImageFile.value))
    else if d.coverImage != "" then Some(LinkUrl(d.coverImage))
    else None
  }

  /** `get_is_owner`: false for an anonymous requester (`None`). */
  function IsOwner(requester: Option<UserId>, d: Dictionary): (b: bool)
    ensures b <==> requester == Some(d.owner)
  {
    match requester
    case None => false
    case Some(u) => d.owner == u
  }

  /** Whether a purchase of the dictionary by the user exists, of either access type. */
  predicate HasPurchase(purchases: set<Purchase>, u: UserId, id: DictionaryId) {
    Purchase(u, id, Permanent) in purchases || Purchase(u, id, Temporary) in purchases
  }

  lemma HasPurchaseOfSomeType(purchases: set<Purchase>, u: UserId, id: DictionaryId)
    ensures HasPurchase(purchases, u, id) <==> exists a: AccessType :: Purchase(u, id, a) in purchases
  {
    if a: AccessType :| Purchase(u, id, a) in purchases {
      assert a == Permanent || a == Temporary;
    }
  }

  /** `get_is_purchased`: false for an anonymous requester. */
  function IsPurchased(requester: Option<UserId>, purchases: set<Purchase>, id: DictionaryId): (b: bool)
    ensures b <==> requester.Some? && exists a: AccessType :: Purchase(requester.value, id, a) in purchases
  {
    match requester
    case None => false
    case Some(u) =>
      HasPurchaseOfSomeType(purchases, u, id);
      HasPurchase(purchases, u, id)
  }

  /** The words of one dictionary. */
  function WordsOf(words: map<WordId, Word>, id: DictionaryId): (r: map<WordId, Word>)
    ensures forall w :: w in r <==> w in words && words[w].dictionary == id
    ensures forall w :: w in r ==> r[w] == words[w]
  {
    map w | w in words && words[w].dictionary == id :: words[w]
  }

  /** `get_word_count`: zero exactly when no word belongs to the dictionary. */
  function WordCount(words: map<WordId, Word>, id: DictionaryId): (n: nat)
    ensures n == 0 <==> forall w :: w in words ==> words[w].dictionary != id
  {
    |WordsOf(words, id).Keys|
  }

  /** A serialized dictionary. `coverImageFile` is write-only, so only
      whether it is present shows, through `coverImageUrl`. */
  datatype DictionaryView = DictionaryView(
    id: DictionaryId,
    owner: UserId,
    name: string,
    description: string,
    sourceLang: string,
    targetLang: string,
    price: Cents,
    allowTemporaryAccess: bool,
    temporaryDays: Option<int>,
    isForSale: bool,
    coverImage: string,
    coverImageUrl: Option<CoverUrl>,
    isOwner: bool,
    wordCount: nat,
    isPurchased: bool)

  function Serialize(id: DictionaryId, d: Dictionary, words: map<WordId, Word>,
                     purchases: set<Purchase>, requester: Option<UserId>): (v: DictionaryView)
    ensures v.id == id && v.owner == d.owner && v.name == d.name && v.isForSale == d.isForSale
    ensures v.description == d.description
    ensures v.sourceLang == d.sourceLang && v.targetLang == d.targetLang
    ensures v.price == d.price
    ensures v.allowTemporaryAccess == d.allowTemporaryAccess && v.temporaryDays == d.temporaryDays
    ensures v.coverImage == d.coverImage
    ensures v.coverImageUrl == CoverImageUrl(d)
    ensures v.isOwner == IsOwner(requester, d)
    ensures v.isPurchased == IsPurchased(requester, purchases, id)
    ensures v.wordCount == WordCount(words, id)
  {
    DictionaryView(id, d.owner, d.name, d.description, d.sourceLang, d.targetLang, d.price,
                   d.allowTemporaryAccess, d.temporaryDays, d.isForSale, d.coverImage,
                   CoverImageUrl(d), IsOwner(requester, d), WordCount(words, id),
                   IsPurchased(requester, purchases, id))
  }

  // ------------------------------------------------------------------- word

  /** A word body; `dictionary` is read-only and taken from `dictionary_id`. */
  datatype WordInput = WordInput(
    word: Option<string>,
    translation: Option<string>,
    imageUrl: Option<string>,
    example: Option<string>)

  datatype WordField = WordText | Translation | ImageUrl | Example

  const WordMaxLength: nat := 100

  /** The rule of each word field. */
  predicate WordFieldRejected(input: WordInput, f: WordField) {
    match f
    case WordText => CharFieldInvalid(input.word, true, false, WordMaxLength)
    case Translation => CharFieldInvalid(input.translation, true, false, WordMaxLength)
    case ImageUrl => CharFieldInvalid(input.imageUrl, false, true, UrlMaxLength)
    case Example => TextFieldInvalid(input.example)
  }

  /** The fields a word body rejects: word and translation are required,
      non-blank and at most 100 characters once stripped; no text field may
      hold a null character. */
  function WordFieldErrors(input: WordInput): (r: set<WordField>)
    ensures WordText !in r <==>
      input.word.Some? && 0 < |Trim(input.word.value)| <= WordMaxLength && NullChar !in Trim(input.word.value)
    ensures Translation !in r <==>
      input.translation.Some? && 0 < |Trim(input.translation.value)| <= WordMaxLength &&
      NullChar !in Trim(input.translation.value)
    ensures ImageUrl !in r <==>
      input.imageUrl.None? ||
      (|Trim(input.imageUrl.value)| <= UrlMaxLength && NullChar !in Trim(input.imageUrl.value))
    ensures Example !in r <==> input.example.None? || NullChar !in Trim(input.example.value)
    ensures input.word.None? ==> WordText in r
    ensures input.translation.None? ==> Translation in r
  {
    NonBlankTextInvalid(input.word, true, WordMaxLength);
    NonBlankTextInvalid(input.translation, true, WordMaxLength);
    OptionalTextInvalid(input.imageUrl, UrlMaxLength);
    set f | f in {WordText, Translation, ImageUrl, Example} && WordFieldRejected(input, f)
  }

  /** The row `WordSerializer.create` inserts: the stripped values, with an
      empty image link and example when they were not sent. */
  function NewWord(dictionary: DictionaryId, input: WordInput): (w: Word)
    requires WordFieldErrors(input) == {}
    ensures w.dictionary == dictionary
    ensures w.word == Trim(input.word.value) && w.translation == Trim(input.translation.value)
    ensures w.imageUrl == TrimField(input.imageUrl).GetOr("")
    ensures w.example == TrimField(input.example).GetOr("")
  {
    Word(dictionary, Trim(input.word.value), Trim(input.translation.value),
         TrimField(input.imageUrl).GetOr(""), TrimField(input.example).GetOr(""))
  }

  /** The lookup `WordSerializer.create` makes: the dictionary named by
      `dictionary_id` and owned by the requester, or nothing. */
  function OwnedDictionary(dictionaries: map<DictionaryId, Dictionary>, u: UserId,
                           dictionaryId: Option<int>): (r: Option<DictionaryId>)
    ensures r.Some? <==>
      dictionaryId.Some? && dictionaryId.value >= 0 &&
      dictionaryId.value as nat in dictionaries && dictionaries[dictionaryId.value as nat].owner == u
    ensures r.Some? ==> r.value as int == dictionaryId.value
  {
    if dictionaryId.Some? && dictionaryId.value >= 0 && dictionaryId.value as nat in dictionaries
       && dictionaries[dictionaryId.value as nat].owner == u
    then Some(dictionaryId.value as nat)
    else None
  }

  // --------------------------------------------------------------- progress

  /** The learned-word ids of a body are accepted iff none is negative and,
      taken as a set, they are all words (of any dictionary). */
  function ValidLearnedWords(words: map<WordId, Word>, ids: seq<int>): (b: bool)
    ensures b <==> (forall i :: 0 <= i < |ids| ==> ids[i] >= 0) && ToSet(ids) <= words.Keys
  {
    EachIdAWord(words, ids);
    forall i :: 0 <= i < |ids| ==> ids[i] >= 0 && ids[i] as nat in words
  }

  function ToSet(ids: seq<int>): (s: set<WordId>)
    ensures forall w: WordId :: w in s <==> (w as int) in ids
  {
    set i | i in ids && i >= 0 :: i as WordId
  }

  /** Checking the ids one by one is checking the set they become. */
  lemma {:induction false} EachIdAWord(words: map<WordId, Word>, ids: seq<int>)
    ensures (forall i :: 0 <= i < |ids| ==> ids[i] >= 0 && ids[i] as nat in words) <==>
            (forall i :: 0 <= i < |ids| ==> ids[i] >= 0) && ToSet(ids) <= words.Keys
  {
    if forall i :: 0 <= i < |ids| ==> ids[i] >= 0 && ids[i] as nat in words {
      forall w | w in ToSet(ids)
        ensures w in words
      {
        var i :| 0 <= i < |ids| && ids[i] == w as int;
      }
    }
    if (forall i :: 0 <= i < |ids| ==> ids[i] >= 0) && ToSet(ids) <= words.Keys {
      forall i | 0 <= i < |ids|
        ensures ids[i] as nat in words
      {
        assert ((ids[i] as nat) as int) in ids;
      }
    }
  }

  /** A list is accepted exactly when the set an update stores from it holds
      only existing words (and no id was negative). */
  lemma {:induction false} LearnedWordsExist(words: map<WordId, Word>, ids: seq<int>, current: set<WordId>)
    ensures ValidLearnedWords(words, ids) <==>
      (forall i :: 0 <= i < |ids| ==> ids[i] >= 0) && ProgressUpdate(current, Some(ids)) <= words.Keys
  {
  }

  /** `LearningProgressSerializer.create`: the learned set of the record
      found or created is replaced only by a non-empty list. */
  function ProgressCreate(current: set<WordId>, learned: Option<seq<int>>): (r: set<WordId>)
    ensures learned.Some? && learned.value != [] ==> r == ToSet(learned.value)
    ensures learned.None? || learned.value == [] ==> r == current
  {
    if learned.Some? && learned.value != [] then ToSet(learned.value) else current
  }

  /** `LearningProgressSerializer.update`: a supplied list, even an empty
      one, replaces the learned set wholesale; an absent one keeps it. */
  function ProgressUpdate(current: set<WordId>, learned: Option<seq<int>>): (r: set<WordId>)
    ensures learned.Some? ==> r == ToSet(learned.value)
    ensures learned.None? ==> r == current
  {
    if learned.Some? then ToSet(learned.value) else current
  }

  /** The two differ on an empty list: create keeps, update clears. */
  lemma EmptyListCreateKeepsUpdateClears(current: set<WordId>)
    ensures ProgressCreate(current, Some([])) == current
    ensures ProgressUpdate(current, Some([])) == {}
  {
  }

  /** A serialized progress record. */
  datatype ProgressView = ProgressView(
    dictionary: DictionaryId,
    learnedWords: set<WordId>,
    learnedWordsCount: nat,
    totalWords: nat,
    progressPercentage: nat)

  function Report(words: map<WordId, Word>, dictionary: DictionaryId, learned: set<WordId>): (v: ProgressView)
    ensures v.dictionary == dictionary && v.learnedWords == learned
    ensures v.learnedWordsCount == |learned| && v.totalWords == WordCount(words, dictionary)
    ensures v.totalWords == 0 ==> v.progressPercentage == 0
    ensures v.totalWords > 0 ==>
      -(v.totalWords as int) <= 2 * (100 * v.learnedWordsCount - v.progressPercentage * v.totalWords) <= v.totalWords
    ensures v.progressPercentage == ProgressPercentage(v.learnedWordsCount, v.totalWords)
  {
    ProgressView(dictionary, learned, |learned|, WordCount(words, dictionary),
                 ProgressPercentage(|learned|, WordCount(words, dictionary)))
  }

  /** Learning only words of the dictionary itself keeps the percentage at
      most 100. */
  lemma {:induction false} ReportAtMostHundred(words: map<WordId, Word>, dictionary: DictionaryId, learned: set<WordId>)
    requires learned <= WordsOf(words, dictionary).Keys
    ensures Report(words, dictionary, learned).progressPercentage <= 100
  {
    SubsetCard(learned, WordsOf(words, dictionary).Keys);
    PercentageAtMostHundred(|learned|, WordCount(words, dictionary));
  }

  lemma {:induction false} SubsetCard(a: set<WordId>, b: set<WordId>)
    requires a <= b
    ensures |a| <= |b|
  {
    assert b == a + (b - a);
  }

  /** The learned list is checked only for existence, so a word of another
      dictionary is accepted and pushes the percentage past 100. */
  lemma ForeignWordsExceedHundred()
    ensures var words := map[0 := Word(0, "hello", "privet", "", ""), 1 := Word(1, "world", "mir", "", "")];
            ValidLearnedWords(words, [0, 1]) &&
            Report(words, 0, ToSet([0, 1])).progressPercentage == 200
  {
    var words := map[0 := Word(0, "hello", "privet", "", ""), 1 := Word(1, "world", "mir", "", "")];
    assert WordsOf(words, 0).Keys == {0};
    assert ToSet([0, 1]) == {0, 1};
  }
}
