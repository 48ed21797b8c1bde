/** The customer record, its phone checks, its address formatting and its email
    uniqueness rule. */
module Customers {
  import opened Results

  type CustomerKey = nat

  /** A customer row. The phone column is required (an empty string is possible, NULL is
      not); the address columns are nullable. */
  datatype Customer = Customer(
    name: string,
    email: string,
    phone: string,
    isCompany: bool,
    street: Option<string>,
    city: Option<string>,
    state: Option<string>,
    zipCode: Option<string>,
    country: string)

  // ---- characters and the phone pattern ----

  predicate IsDigit(c: char) {
    '0' <= c <= '9'
  }

  predicate AllDigits(s: string) {
    forall i :: 0 <= i < |s| ==> IsDigit(s[i])
  }

  /** `\d{9,15}$`: nine to fifteen digits and nothing after them. */
  predicate DigitRun(s: string) {
    9 <= |s| <= 15 && AllDigits(s)
  }

  /** The pattern `^\+?1?\d{9,15}$`, read off its structure: each of the two optional
      prefixes is either taken or skipped. */
  predicate MatchesPhonePattern(s: string) {
    DigitRun(s)
    || (|s| >= 1 && s[0] == '+' && DigitRun(s[1..]))
    || (|s| >= 1 && s[0] == '1' && DigitRun(s[1..]))
    || (|s| >= 2 && s[0] == '+' && s[1] == '1' && DigitRun(s[2..]))
  }

  /** A direct description of the same shape: after an optional '+', only digits, nine to
      fifteen of them, or sixteen when the first is the optional '1'. */
  predicate PhoneShape(s: string) {
    var t := if |s| > 0 && s[0] == '+' then s[1..] else s;
    AllDigits(t) && (9 <= |t| <= 15 || (|t| == 16 && t[0] == '1'))
  }

  lemma DigitsOfTail(s: string, k: nat)
    requires k <= |s|
    requires forall i :: 0 <= i < k ==> IsDigit(s[i])
    ensures AllDigits(s[k..]) <==> AllDigits(s)
  {
    if AllDigits(s[k..]) {
      forall i | 0 <= i < |s| ensures IsDigit(s[i]) {
        if i >= k {
          assert s[i] == s[k..][i - k];
        }
      }
    }
  }

  /** The structural reading of the pattern and the direct description agree on every
      string. */
  lemma PhonePatternShape(s: string)
    ensures MatchesPhonePattern(s) <==> PhoneShape(s)
  {
    if |s| > 0 && s[0] == '+' {
      var t := s[1..];
      assert !DigitRun(s) && !(s[0] == '1');
      if |t| > 0 && t[0] == '1' {
        assert s[2..] == t[1..];
        DigitsOfTail(t, 1);
      }
    } else if |s| > 0 && s[0] == '1' {
      DigitsOfTail(s, 1);
    } else if |s| > 0 {
      assert !IsDigit(s[0]) ==> !AllDigits(s);
    }
  }

  /** Nothing with a character outside '+' and the digits matches. */
  lemma PatternRejectsOtherChars(s: string, i: nat)
    requires i < |s| && s[i] != '+' && !IsDigit(s[i])
    ensures !MatchesPhonePattern(s)
  {
    PhonePatternShape(s);
    if |s| > 0 && s[0] == '+' {
      assert s[1..][i - 1] == s[i];
    }
  }

  // ---- string edits ----

  /** `s.replace(a, b)` for single characters. */
  function ReplaceChar(s: string, a: char, b: char): (r: string)
    ensures |r| == |s|
    ensures forall i :: 0 <= i < |s| ==> r[i] == (if s[i] == a then b else s[i])
  {
    seq(|s|, i requires 0 <= i < |s| => if s[i] == a then b else s[i])
  }

  /** Replacing a character by itself changes nothing. */
  lemma ReplaceCharSelf(s: string, a: char)
    ensures ReplaceChar(s, a, a) == s
  {
  }

  /** `s.replace(c, '')`: every occurrence of `c` removed, everything else kept in order. */
  function Without(s: string, c: char): (r: string)
    ensures c !in r
    ensures multiset(r) == multiset(s)[c := 0]
    ensures |r| <= |s|
    decreases |s|
  {
    if s == [] then []
    else
      assert s == [s[0]] + s[1..];
      if s[0] == c then Without(s[1..], c)
    else [s[0]] + Without(s[1..], c)
  }

  lemma {:induction false} WithoutAbsent(s: string, c: char)
    requires c !in s
    ensures Without(s, c) == s
    decreases |s|
  {
    if s != [] {
      assert c !in s[1..];
      WithoutAbsent(s[1..], c);
      assert [s[0]] + s[1..] == s;
    }
  }

  lemma WithoutKeepsOthers(s: string, c: char, d: char)
    requires d != c
    ensures d in Without(s, c) <==> d in s
  {
    assert d in Without(s, c) <==> multiset(Without(s, c))[d] > 0;
    assert d in s <==> multiset(s)[d] > 0;
  }

  // ---- Customer.clean ----

  /** `Customer.clean` as written: the first replacement swaps a space for a space, so only
      '-' is removed before matching; an empty phone skips the check. */
  function CleanPhoneAsWritten(phone: string): (r: Result<(), string>)
    ensures r.Err? <==> phone != "" && !MatchesPhonePattern(Without(phone, '-'))
    ensures r.Err? ==> r.error == "Enter a valid phone number."
  {
    ReplaceCharSelf(phone, ' ');
    if phone != "" && !MatchesPhonePattern(Without(ReplaceChar(phone, ' ', ' '), '-'))
    then Err("Enter a valid phone number.")
    else Ok(())
  }

  /** `Customer.clean` with the evident intent of its first replacement: spaces and '-' are
      removed before matching. */
  function CleanPhone(phone: string): (r: Result<(), string>)
    ensures r.Err? <==> phone != "" && !PhoneShape(Without(Without(phone, ' '), '-'))
    ensures r.Err? ==> r.error == "Enter a valid phone number."
  {
    PhonePatternShape(Without(Without(phone, ' '), '-'));
    if phone != "" && !MatchesPhonePattern(Without(Without(phone, ' '), '-'))
    then Err("Enter a valid phone number.")
    else Ok(())
  }

  /** As written, any phone with a space in it is rejected. */
  lemma CleanPhoneAsWrittenRejectsSpaces(phone: string)
    requires ' ' in phone
    ensures CleanPhoneAsWritten(phone).Err?
  {
    var t := Without(phone, '-');
    WithoutKeepsOthers(phone, '-', ' ');
    var i :| 0 <= i < |t| && t[i] == ' ';
    PatternRejectsOtherChars(t, i);
  }

  // ---- the serializer ----

  /** The cleaning `validate_phone` applies before matching. */
  function CleanedPhone(value: string): (r: string)
    ensures ' ' !in r && '-' !in r && '(' !in r && ')' !in r
    ensures forall c :: c != ' ' && c != '-' && c != '(' && c != ')' ==> multiset(r)[c] == multiset(value)[c]
  {
    var a := Without(value, ' ');
    var b := Without(a, '-');
    var d := Without(b, '(');
    var r := Without(d, ')');
    WithoutKeepsOthers(a, '-', ' ');
    WithoutKeepsOthers(b, '(', ' ');
    WithoutKeepsOthers(d, ')', ' ');
    WithoutKeepsOthers(b, '(', '-');
    WithoutKeepsOthers(d, ')', '-');
    WithoutKeepsOthers(d, ')', '(');
    r
  }

  /** `validate_phone`: the value is accepted iff its cleaned form matches the pattern, and
      the value itself, not the cleaned form, is what is kept. */
  function ValidatePhone(value: string): (r: Result<string, string>)
    ensures r.Ok? <==> PhoneShape(CleanedPhone(value))
    ensures r.Ok? ==> r.value == value
    ensures r.Err? ==> r.error == "Enter a valid phone number."
  {
    PhonePatternShape(CleanedPhone(value));
    if MatchesPhonePattern(CleanedPhone(value)) then Ok(value) else Err("Enter a valid phone number.")
  }

  /** On a non-empty phone without parentheses, the corrected model check and the
      serializer check agree. */
  lemma CleanPhoneAgreesWithSerializer(phone: string)
    requires phone != ""
    requires '(' !in phone && ')' !in phone
    ensures CleanPhone(phone).Ok? <==> ValidatePhone(phone).Ok?
  {
    var t := Without(Without(phone, ' '), '-');
    WithoutKeepsOthers(phone, ' ', '(');
    WithoutKeepsOthers(Without(phone, ' '), '-', '(');
    WithoutAbsent(t, '(');
    WithoutKeepsOthers(phone, ' ', ')');
    WithoutKeepsOthers(Without(phone, ' '), '-', ')');
    WithoutAbsent(t, ')');
  }

  lemma DigitsConcat(a: string, b: string, c: string)
    requires AllDigits(a) && AllDigits(b) && AllDigits(c)
    ensures AllDigits(a + b + c)
  {
    var digits := a + b + c;
    forall i | 0 <= i < |digits| ensures IsDigit(digits[i]) {
      if i < |a| {
        assert digits[i] == a[i];
      } else if i < |a| + |b| {
        assert digits[i] == b[i - |a|];
      } else {
        assert digits[i] == c[i - |a| - |b|];
      }
    }
  }

  lemma NoSeparatorsInDigits(s: string)
    requires AllDigits(s)
    ensures ' ' !in s && '-' !in s && '(' !in s && ')' !in s
  {
  }

  /** Removing the spaces across one space. */
  lemma WithoutAcrossSpace(x: string, y: string)
    ensures Without(x + " " + y, ' ') == Without(x, ' ') + Without(y, ' ')
  {
    WithoutConcat(x + " ", y, ' ');
    WithoutConcat(x, " ", ' ');
    assert " "[1..] == [];
    assert Without(" ", ' ') == [];
    assert Without(x + " ", ' ') == Without(x, ' ');
  }

  /** Removing the spaces from three digit groups joins them. */
  lemma SpacesRemoved(a: string, b: string, c: string)
    requires AllDigits(a) && AllDigits(b) && AllDigits(c)
    ensures Without(a + " " + b + " " + c, ' ') == a + b + c
  {
    NoSeparatorsInDigits(a);
    NoSeparatorsInDigits(b);
    NoSeparatorsInDigits(c);
    WithoutAbsent(a, ' ');
    WithoutAbsent(b, ' ');
    WithoutAbsent(c, ' ');
    WithoutAcrossSpace(a + " " + b, c);
    WithoutAcrossSpace(a, b);
  }

  /** A number written in three digit groups separated by spaces: the serializer and the
      corrected model check accept it, the model check as written rejects it. */
  lemma SpacedPhoneRejectedAsWritten(a: string, b: string, c: string)
    requires AllDigits(a) && AllDigits(b) && AllDigits(c)
    requires 9 <= |a| + |b| + |c| <= 15
    ensures ValidatePhone(a + " " + b + " " + c).Ok?
    ensures CleanPhone(a + " " + b + " " + c).Ok?
    ensures CleanPhoneAsWritten(a + " " + b + " " + c).Err?
  {
    var p := a + " " + b + " " + c;
    var digits := a + b + c;
    DigitsConcat(a, b, c);
    assert DigitRun(digits);
    NoSeparatorsInDigits(digits);
    SpacesRemoved(a, b, c);
    WithoutAbsent(digits, '-');
    WithoutAbsent(digits, '(');
    WithoutAbsent(digits, ')');
    assert CleanedPhone(p) == digits;
    assert p[|a|] == ' ';
    CleanPhoneAsWrittenRejectsSpaces(p);
  }

  /** The number "555 123 4567". */
  lemma SpacedPhoneCounterexample(phone: string)
    requires phone == "555 123 4567"
    ensures ValidatePhone(phone).Ok?
    ensures CleanPhone(phone).Ok?
    ensures CleanPhoneAsWritten(phone).Err?
  {
    var a, b, c := "555", "123", "4567";
    assert AllDigits(a) && AllDigits(b) && AllDigits(c);
    assert phone == a + " " + b + " " + c;
    SpacedPhoneRejectedAsWritten(a, b, c);
  }

  lemma {:induction false} WithoutConcat(a: string, b: string, c: char)
    ensures Without(a + b, c) == Without(a, c) + Without(b, c)
    decreases |a|
  {
    if a == [] {
      assert a + b == b;
    } else {
      assert (a + b)[0] == a[0];
      assert (a + b)[1..] == a[1..] + b;
      WithoutConcat(a[1..], b, c);
    }
  }

  // ---- full_address ----

  /** Python truthiness of an optional string: neither None nor empty. */
  predicate Present(part: Option<string>) {
    part.Some? && part.value != ""
  }

  /** How an optional value renders inside an f-string: None prints as "None". */
  function Render(part: Option<string>): (r: string)
    ensures part.None? ==> r == "None"
    ensures part.Some? ==> r == part.value
  {
    match part
    case Some(v) => v
    case None => "None"
  }

  /** The "city, state zip" segment, present only when city and state both are. */
  function CitySegment(c: Customer): (r: Option<string>)
    ensures r.Some? <==> Present(c.city) && Present(c.state)
    ensures r.Some? ==> r.value == c.city.value + ", " + c.state.value + " " + Render(c.zipCode)
    ensures Present(r) <==> r.Some?
  {
    if Present(c.city) && Present(c.state)
    then Some(c.city.value + ", " + c.state.value + " " + Render(c.zipCode))
    else None
  }

  /** `filter(None, parts)`: the parts that are present, in order. */
  function PresentParts(parts: seq<Option<string>>): (r: seq<string>)
    ensures forall i :: 0 <= i < |r| ==> r[i] != ""
    ensures |r| <= |parts|
    decreases |parts|
  {
    if parts == [] then [] else Kept(parts[0]) + PresentParts(parts[1..])
  }

  /** The part as `filter(None, ...)` keeps it: itself when present, nothing otherwise. */
  function Kept(part: Option<string>): (r: seq<string>)
    ensures Present(part) ==> r == [part.value]
    ensures !Present(part) ==> r == []
  {
    if Present(part) then [part.value] else []
  }

  /** `sep.join(parts)`. */
  function Join(parts: seq<string>, sep: string): string
    decreases |parts|
  {
    if parts == [] then ""
    else if |parts| == 1 then parts[0]
    else parts[0] + sep + Join(parts[1..], sep)
  }

  lemma {:induction false} JoinStartsWithFirst(parts: seq<string>, sep: string)
    requires parts != []
    ensures parts[0] <= Join(parts, sep)
  {
  }

  lemma {:induction false} JoinEndsWithLast(parts: seq<string>, sep: string)
    requires parts != []
    ensures |parts[|parts| - 1]| <= |Join(parts, sep)|
    ensures Join(parts, sep)[|Join(parts, sep)| - |parts[|parts| - 1]|..] == parts[|parts| - 1]
    decreases |parts|
  {
    if |parts| > 1 {
      JoinEndsWithLast(parts[1..], sep);
      var j := Join(parts[1..], sep);
      var last := parts[|parts| - 1];
      assert parts[1..][|parts[1..]| - 1] == last;
      var pre := parts[0] + sep;
      assert Join(parts, sep) == pre + j;
      assert (pre + j)[|pre + j| - |last|..] == j[|j| - |last|..];
    }
  }

  lemma {:induction false} JoinEmpty(parts: seq<string>, sep: string)
    requires forall i :: 0 <= i < |parts| ==> parts[i] != ""
    ensures Join(parts, sep) == "" <==> parts == []
  {
    if parts != [] {
      JoinStartsWithFirst(parts, sep);
    }
  }

  /** What the joined string shows of its parts: the first at the front, the last at the
      end, and nothing at all only for no parts. */
  lemma JoinEnds(parts: seq<string>, sep: string)
    requires forall i :: 0 <= i < |parts| ==> parts[i] != ""
    ensures Join(parts, sep) == "" <==> parts == []
    ensures parts != [] ==> parts[0] <= Join(parts, sep)
    ensures parts != [] ==> |parts[|parts| - 1]| <= |Join(parts, sep)|
                            && Join(parts, sep)[|Join(parts, sep)| - |parts[|parts| - 1]|..] == parts[|parts| - 1]
  {
    JoinEmpty(parts, sep);
    if parts != [] {
      JoinStartsWithFirst(parts, sep);
      JoinEndsWithLast(parts, sep);
    }
  }

  /** The strings `filter(None, ...)` keeps of three parts. */
  lemma PresentPartsOfThree(parts: seq<Option<string>>)
    requires |parts| == 3
    ensures PresentParts(parts) == Kept(parts[0]) + Kept(parts[1]) + Kept(parts[2])
  {
    var k0, k1, k2 := Kept(parts[0]), Kept(parts[1]), Kept(parts[2]);
    assert PresentParts(parts[3..]) == [];
    assert PresentParts(parts[2..]) == k2 + PresentParts(parts[2..][1..]);
    assert parts[2..][1..] == parts[3..];
    assert PresentParts(parts[1..]) == k1 + PresentParts(parts[1..][1..]);
    assert parts[1..][1..] == parts[2..];
    assert PresentParts(parts) == k0 + (k1 + (k2 + []));
    assert k0 + (k1 + (k2 + [])) == k0 + k1 + k2;
  }

  lemma JoinOfThree(x: string, y: string, z: string, sep: string)
    ensures Join([x, y, z], sep) == x + sep + y + sep + z
    ensures Join([x, y], sep) == x + sep + y
  {
    assert [y, z][1..] == [z];
    assert Join([y, z], sep) == y + sep + Join([z], sep);
    assert [x, y, z][1..] == [y, z];
    assert Join([x, y, z], sep) == x + sep + Join([y, z], sep);
    assert [x, y][1..] == [y];
    assert Join([x, y], sep) == x + sep + Join([y], sep);
  }

  /** The three address parts in their fixed order: street, the city segment, country. */
  function AddressParts(c: Customer): seq<Option<string>> {
    [c.street, CitySegment(c), Some(c.country)]
  }

  /** `full_address`: the present parts joined by ", "; a present street comes first, a
      non-empty country last, and the address is empty only when all three parts are absent. */
  function FullAddress(c: Customer): (r: string)
    ensures Present(c.street) ==> c.street.value <= r
    ensures c.country != "" ==> |c.country| <= |r| && r[|r| - |c.country|..] == c.country
    ensures r == "" <==> !Present(c.street) && !(Present(c.city) && Present(c.state)) && c.country == ""
  {
    var parts := PresentParts(AddressParts(c));
    var r := Join(parts, ", ");
    PresentPartsOfThree(AddressParts(c));
    assert parts == Kept(c.street) + Kept(CitySegment(c)) + Kept(Some(c.country));
    assert Present(c.street) ==> parts[0] == c.street.value;
    assert c.country != "" ==> parts[|parts| - 1] == c.country;
    JoinEnds(parts, ", ");
    r
  }

  /** With every part present the address reads "street, city, state zip, country", with a
      missing zip code printed as "None". */
  lemma FullAddressAllParts(c: Customer)
    requires Present(c.street) && Present(c.city) && Present(c.state) && c.country != ""
    ensures FullAddress(c) == c.street.value + ", " + c.city.value + ", " + c.state.value + " "
                              + Render(c.zipCode) + ", " + c.country
  {
    var seg := c.city.value + ", " + c.state.value + " " + Render(c.zipCode);
    PresentPartsOfThree(AddressParts(c));
    assert PresentParts(AddressParts(c)) == [c.street.value, seg, c.country];
    JoinOfThree(c.street.value, seg, c.country, ", ");
  }

  /** Without both city and state the segment is dropped: the address is street and country
      alone. */
  lemma FullAddressWithoutCity(c: Customer)
    requires !(Present(c.city) && Present(c.state))
    requires Present(c.street) && c.country != ""
    ensures FullAddress(c) == c.street.value + ", " + c.country
  {
    PresentPartsOfThree(AddressParts(c));
    assert PresentParts(AddressParts(c)) == [c.street.value, c.country];
    JoinOfThree(c.street.value, c.country, c.country, ", ");
  }

  // ---- validate_email ----

  /** Some customer other than `instance` (any customer, when there is none) has `value`. */
  predicate EmailTaken(cs: map<CustomerKey, Customer>, instance: Option<CustomerKey>, value: string) {
    exists k :: k in cs && Some(k) != instance && cs[k].email == value
  }

  predicate UniqueEmails(cs: map<CustomerKey, Customer>) {
    forall a, b :: a in cs && b in cs && a != b ==> cs[a].email != cs[b].email
  }

  /** `validate_email`: the lookup excludes the instance's own row on update and is over
      every row on create. */
  function ValidateEmail(cs: map<CustomerKey, Customer>, instance: Option<CustomerKey>, value: string)
    : (r: Result<string, string>)
    ensures r.Ok? <==> !EmailTaken(cs, instance, value)
    ensures r.Ok? ==> r.value == value
    ensures r.Err? ==> r.error == "Customer with this email already exists."
  {
    var taken :=
      match instance
      case Some(pk) => exists k :: k in cs && k != pk && cs[k].email == value
      case None => exists k :: k in cs && cs[k].email == value;
    if taken then Err("Customer with this email already exists.") else Ok(value)
  }

  /** Saving a customer under an accepted email keeps emails unique, on create and on
      update alike. */
  lemma AcceptedEmailKeepsUnique(cs: map<CustomerKey, Customer>, instance: Option<CustomerKey>,
                                 key: CustomerKey, c: Customer)
    requires UniqueEmails(cs)
    requires instance == Some(key) || (instance == None && key !in cs)
    requires ValidateEmail(cs, instance, c.email).Ok?
    ensures UniqueEmails(cs[key := c])
  {
    var cs' := cs[key := c];
    forall a, b | a in cs' && b in cs' && a != b
      ensures cs'[a].email != cs'[b].email
    {
      if a == key {
        assert !(b in cs && Some(b) != instance && cs[b].email == c.email);
      } else if b == key {
        assert !(a in cs && Some(a) != instance && cs[a].email == c.email);
      }
    }
  }
}
