/** The persisted entities of the dictionary marketplace (users, dictionaries,
    words, purchases, learning progress), their field defaults, the model-level
    `clean` check of a dictionary and the completion percentage of a learning
    progress record. */
module Models {
  import opened Common

  /** Primary keys are the database's auto-incremented ids. */
  type UserId = nat
  type DictionaryId = nat
  type WordId = nat

  /** Storage name of an uploaded cover image; the file itself is not modelled. */
  type FileRef = string

  /** A decimal amount with two decimal places, as a whole number of hundredths. */
  type Cents = int

  const DefaultNotificationHour: int := 9
  const DefaultNotificationMinute: int := 0
  const DefaultTemporaryDays: nat := 7

  datatype User = User(
    username: string,
    email: string,
    balance: Cents,
    notificationsEnabled: bool,
    notificationHour: int,
    notificationMinute: int)

  /** The address `create_user` stores (`normalize_email`): when the stripped
      address holds an `@`, it is kept stripped with the part after its last
      `@` lower-cased; an address without `@` is kept exactly as given. */
  function NormalizeEmail(email: string): (r: string)
    ensures '@' !in Trim(email) ==> r == email
    ensures '@' in Trim(email) ==>
      var t := Trim(email);
      var i := LastIndexOf(t, '@').value;
      |r| == |t| && r[..i + 1] == t[..i + 1] && r[i + 1..] == Lower(t[i + 1..])
  {
    var t := Trim(email);
    match LastIndexOf(t, '@')
    case None => email
    case Some(i) =>
      var r := t[..i + 1] + Lower(t[i + 1..]);
      assert r[..i + 1] == t[..i + 1] && r[i + 1..] == Lower(t[i + 1..]);
      r
  }

  /** Lower-casing never yields a space or an `@` from anything else. */
  lemma LowerCharKeeps(c: char)
    ensures IsSpace(LowerChar(c)) <==> IsSpace(c)
    ensures LowerChar(c) == '@' <==> c == '@'
  {
  }

  /** The domain of a normalized address holds no `@`. */
  lemma {:induction false} LowerNoAt(domain: string)
    requires '@' !in domain
    ensures '@' !in Lower(domain)
  {
    forall j | 0 <= j < |domain|
      ensures Lower(domain)[j] != '@'
    {
      LowerCharKeeps(domain[j]);
    }
  }

  /** A normalized address is stripped, and its last `@` is where it was. */
  lemma {:induction false} NormalizedShape(t: string, i: nat, r: string)
    requires t == "" || (!IsSpace(t[0]) && !IsSpace(t[|t| - 1]))
    requires i < |t| && t[i] == '@' && '@' !in t[i + 1..]
    requires |r| == |t| && r[..i + 1] == t[..i + 1] && r[i + 1..] == Lower(t[i + 1..])
    ensures Trim(r) == r
    ensures LastIndexOf(r, '@') == Some(i)
  {
    assert r[0] == r[..i + 1][0];
    if i + 1 < |t| {
      LowerCharKeeps(t[|t| - 1]);
      assert r[|r| - 1] == r[i + 1..][|t| - i - 2];
    } else {
      assert r[|r| - 1] == r[..i + 1][i];
    }
    TrimStripped(r);
    assert r[i] == r[..i + 1][i];
    LowerNoAt(t[i + 1..]);
    LastIndexOfAt(r, '@', i);
  }

  /** A stored address normalizes to itself. */
  lemma {:induction false} NormalizeEmailIdempotent(email: string)
    ensures NormalizeEmail(NormalizeEmail(email)) == NormalizeEmail(email)
  {
    var t := Trim(email);
    var r := NormalizeEmail(email);
    if '@' in t {
      var i := LastIndexOf(t, '@').value;
      NormalizedShape(t, i, r);
      var r' := NormalizeEmail(r);
      LowerIdempotent(t[i + 1..]);
      assert r' == r'[..i + 1] + r'[i + 1..];
      assert r == r[..i + 1] + r[i + 1..];
    }
  }

  /** Only the domain is lower-cased: "b@Mail" is stored as "b@mail". */
  lemma NormalizeEmailExample()
    ensures NormalizeEmail("b@Mail") == "b@mail"
  {
    var e := "b@Mail";
    assert Trim(e) == e by { TrimStripped(e); }
    assert LastIndexOf(e, '@') == Some(1) by {
      assert e[2..] == "Mail";
      LastIndexOfAt(e, '@', 1);
    }
    assert Lower("Mail") == "mail";
    var r := NormalizeEmail(e);
    assert r[..2] == "b@";
    assert r == r[..2] + r[2..];
  }

  /** A user as registration stores it: the address normalized, every field
      not given at its default. */
  function NewUser(username: string, email: string): (u: User)
    ensures u.username == username && u.email == NormalizeEmail(email)
    ensures u.balance == 0 && !u.notificationsEnabled
    ensures u.notificationHour == 9 && u.notificationMinute == 0
  {
    User(username, NormalizeEmail(email), 0, false, DefaultNotificationHour, DefaultNotificationMinute)
  }

  /** The notification time is a real time of day. */
  predicate ValidNotificationTime(u: User) {
    0 <= u.notificationHour <= 23 && 0 <= u.notificationMinute <= 59
  }

  datatype Dictionary = Dictionary(
    owner: UserId,
    name: string,
    description: string,
    sourceLang: string,
    targetLang: string,
    price: Cents,
    allowTemporaryAccess: bool,
    temporaryDays: Option<int>,
    isForSale: bool,
    coverImage: string,
    coverImageFile: Option<FileRef>)

  datatype Word = Word(
    dictionary: DictionaryId,
    word: string,
    translation: string,
    imageUrl: string,
    example: string)

  /** The two choices of `Purchase.access_type`. */
  datatype AccessType = Permanent | Temporary

  function AccessTypeCode(a: AccessType): string {
    match a
    case Permanent => "permanent"
    case Temporary => "temporary"
  }

  /** Reads a stored access type; only the two choice codes are accepted. */
  function ParseAccessType(code: string): (r: Option<AccessType>)
    ensures r.Some? <==> code == "permanent" || code == "temporary"
  {
    if code == "permanent" then Some(Permanent)
    else if code == "temporary" then Some(Temporary)
    else None
  }

  /** The stored code of an access type reads back as that access type, and
      every code that reads back is the code of what it reads as. */
  lemma AccessTypeRoundTrip(a: AccessType, code: string)
    ensures ParseAccessType(AccessTypeCode(a)) == Some(a)
    ensures ParseAccessType(code) == Some(a) ==> AccessTypeCode(a) == code
  {
  }

  datatype Purchase = Purchase(user: UserId, dictionary: DictionaryId, accessType: AccessType)

  /** A learning progress record is identified by its (user, dictionary) pair. */
  type ProgressKey = (UserId, DictionaryId)

  datatype CleanError = NameRequiredForSale | DescriptionRequiredForSale

  /** `Dictionary.clean`: a dictionary offered for sale needs a name and a
      description; the name is checked first. */
  function Clean(d: Dictionary): (r: Option<CleanError>)
    ensures r.None? <==> (d.isForSale ==> d.name != "" && d.description != "")
    ensures r == Some(NameRequiredForSale) <==> d.isForSale && d.name == ""
    ensures r == Some(DescriptionRequiredForSale) <==> d.isForSale && d.name != "" && d.description == ""
  {
    if d.isForSale && d.name == "" then Some(NameRequiredForSale)
    else if d.isForSale && d.description == "" then Some(DescriptionRequiredForSale)
    else None
  }

  /** `get_progress_percentage`: 0 for a dictionary without words, otherwise
      100 * learned / total rounded to the nearest integer (an exact tie goes
      to the even neighbour, as Python's `round` does). */
  function ProgressPercentage(learned: nat, total: nat): (p: nat)
    ensures total == 0 ==> p == 0
    ensures total > 0 ==> -(total as int) <= 2 * (100 * learned - p * total) <= total
  {
    if total == 0 then 0
    else
      var q := (100 * learned) / total;
      var rem := (100 * learned) % total;
      assert 100 * learned == q * total + rem;
      if 2 * rem > total || (2 * rem == total && q % 2 == 1) then
        assert (q + 1) * total == q * total + total;
        q + 1
      else
        q
  }

  /** Multiplying by a non-negative factor keeps an inequality. */
  lemma MulLeq(a: int, b: int, c: nat)
    requires a <= b
    ensures a * c <= b * c
  {
    assert b * c - a * c == (b - a) * c;
  }

  /** Learning no more words than the dictionary holds gives at most 100. */
  lemma {:induction false} PercentageAtMostHundred(learned: nat, total: nat)
    requires learned <= total
    ensures ProgressPercentage(learned, total) <= 100
  {
    var p := ProgressPercentage(learned, total);
    if total > 0 && p > 100 {
      MulLeq(101, p, total);
      assert false;
    }
  }

  /** Learning every word of a non-empty dictionary gives exactly 100. */
  lemma {:induction false} PercentageAllLearned(total: nat)
    requires total > 0
    ensures ProgressPercentage(total, total) == 100
  {
    var p := ProgressPercentage(total, total);
    if p < 100 {
      MulLeq(p + 1, 100, total);
      assert false;
    } else if p > 100 {
      MulLeq(101, p, total);
      assert false;
    }
  }

  /** Two nearest integers of 100 * learned / total are ordered like the
      numbers of learned words, unless those are equal. */
  lemma NearestOrdered(learned1: nat, learned2: nat, total: nat, p1: int, p2: int)
    requires total > 0 && learned1 <= learned2
    requires -(total as int) <= 2 * (100 * learned1 - p1 * total)
    requires 2 * (100 * learned2 - p2 * total) <= total
    ensures p1 <= p2 || learned1 == learned2
  {
    if p1 > p2 {
      MulLeq(p2 + 1, p1, total);
      assert (p2 + 1) * total == p2 * total + total;
    }
  }

  /** For a fixed number of words, learning more never lowers the percentage. */
  lemma {:induction false} PercentageMonotonic(learned1: nat, learned2: nat, total: nat)
    requires learned1 <= learned2
    ensures ProgressPercentage(learned1, total) <= ProgressPercentage(learned2, total)
  {
    if total > 0 {
      NearestOrdered(learned1, learned2, total,
                     ProgressPercentage(learned1, total), ProgressPercentage(learned2, total));
    }
  }
}
