/** Input sanitising and the validators of the consultation form
    (`public/phase1/js/utils/validation.js`). */
module Validation {
  import opened Wrappers
  import opened JsString
  import Calculations

  // ---------------------------------------------------------------------
  // sanitizeInput
  // ---------------------------------------------------------------------

  predicate IsAngle(c: char) { c == '<' || c == '>' }

  predicate NoAngles(s: string) { forall k :: 0 <= k < |s| ==> !IsAngle(s[k]) }

  /** Number of `<` and `>` in `s`. */
  function AngleCount(s: string): nat {
    if s == [] then 0 else (if IsAngle(s[0]) then 1 else 0) + AngleCount(s[1..])
  }

  /** `s.replace(/[<>]/g, '')`: every `<` and `>` deleted, the rest kept in order. */
  function RemoveAngles(s: string): (r: string)
    ensures NoAngles(r)
    ensures |r| == |s| - AngleCount(s)
  {
    if s == [] then []
    else if IsAngle(s[0]) then RemoveAngles(s[1..])
    else [s[0]] + RemoveAngles(s[1..])
  }

  /** Deletion works piece by piece: the result for a concatenation is the
      concatenation of the results. */
  lemma {:induction false} RemoveAnglesAppend(a: string, b: string)
    ensures RemoveAngles(a + b) == RemoveAngles(a) + RemoveAngles(b)
    decreases |a|
  {
    if a != [] {
      assert (a + b)[1..] == a[1..] + b;
      RemoveAnglesAppend(a[1..], b);
    } else {
      assert a + b == b;
    }
  }

  /** A string without angle brackets is left as it is. */
  lemma {:induction false} RemoveAnglesKeeps(s: string)
    requires NoAngles(s)
    ensures RemoveAngles(s) == s
    decreases |s|
  {
    if s != [] {
      RemoveAnglesKeeps(s[1..]);
      assert [s[0]] + s[1..] == s;
    }
  }

  /** `sanitizeInput(input)`: `''` for a non-string (`None`), otherwise the
      trimmed input with every `<` and `>` deleted. */
  function SanitizeInput(input: Option<string>): (r: string)
    ensures input.None? ==> r == ""
    ensures NoAngles(r)
    ensures input.Some? ==> |r| <= |input.value|
  {
    if input.None? then "" else RemoveAngles(Trim(input.value))
  }

  /** Sanitising twice gives nothing new once the first result is free of
      surrounding white space (deleting brackets can expose some, see
      `SanitizeExposesSpace`). */
  lemma SanitizeStable(input: Option<string>)
    requires var r := SanitizeInput(input); r == [] || (!IsSpace(r[0]) && !IsSpace(r[|r| - 1]))
    ensures SanitizeInput(Some(SanitizeInput(input))) == SanitizeInput(input)
  {
    var r := SanitizeInput(input);
    TrimOfTrimmed(r);
    RemoveAnglesKeeps(r);
  }

  /** Trimming happens before deletion, so "< a" sanitises to " a", which
      still begins with a space. */
  lemma SanitizeExposesSpace(s: string, lt: string, a: string)
    requires lt == "<" && a == " a" && s == lt + a
    ensures SanitizeInput(Some(s)) == a && IsSpace(SanitizeInput(Some(s))[0])
  {
    assert !IsSpace(s[0]) && !IsSpace(s[|s| - 1]);
    TrimOfTrimmed(s);
    RemoveAnglesAppend(lt, a);
    assert RemoveAngles(lt) == [];
    assert NoAngles(a);
    RemoveAnglesKeeps(a);
  }

  // ---------------------------------------------------------------------
  // validateEmail: /^[^\s@]+@[^\s@]+\.[^\s@]+$/
  // ---------------------------------------------------------------------

  /** `[^\s@]+`: a non-empty run with no white space and no `@`. */
  predicate EmailRun(s: string) {
    s != [] && forall k :: 0 <= k < |s| ==> !IsSpace(s[k]) && s[k] != '@'
  }

  /** The regular expression matches with its `@` at `i` and its `\.` at `j`. */
  predicate EmailSplit(s: string, i: int, j: int) {
    0 <= i < j < |s| && s[i] == '@' && s[j] == '.'
    && EmailRun(s[..i]) && EmailRun(s[i + 1..j]) && EmailRun(s[j + 1..])
  }

  /** `validateEmail(email)`: some choice of `@` and `.` makes the pattern match. */
  predicate ValidateEmail(s: string) {
    exists i, j | 0 <= i < |s| && 0 <= j < |s| :: EmailSplit(s, i, j)
  }

  /** The shape the pattern describes, stated without the pattern: no white
      space, exactly one `@`, something before it, and a `.` after it that is
      neither the first nor the last character of the domain. */
  predicate EmailShape(s: string) {
    (forall k :: 0 <= k < |s| ==> !IsSpace(s[k]))
    && exists i, j | 0 <= i < |s| && 0 <= j < |s| :: AtThenDot(s, i, j)
  }

  predicate AtThenDot(s: string, i: int, j: int) {
    0 < i && i + 1 < j < |s| - 1 && s[i] == '@' && s[j] == '.'
    && forall k :: 0 <= k < |s| && s[k] == '@' ==> k == i
  }

  /** A match of the pattern is exactly an address of that shape. */
  lemma EmailMeaning(s: string)
    ensures ValidateEmail(s) <==> EmailShape(s)
  {
    if ValidateEmail(s) {
      var i, j :| 0 <= i < |s| && 0 <= j < |s| && EmailSplit(s, i, j);
      forall k | 0 <= k < |s|
        ensures !IsSpace(s[k]) && (s[k] == '@' ==> k == i)
      {
        if k < i {
          assert s[k] == s[..i][k];
        } else if i < k < j {
          assert s[k] == s[i + 1..j][k - i - 1];
        } else if j < k {
          assert s[k] == s[j + 1..][k - j - 1];
        }
      }
      assert AtThenDot(s, i, j);
    }
    if EmailShape(s) {
      var i, j :| 0 <= i < |s| && 0 <= j < |s| && AtThenDot(s, i, j);
      assert EmailRun(s[..i]);
      assert EmailRun(s[i + 1..j]);
      assert EmailRun(s[j + 1..]);
      assert EmailSplit(s, i, j);
    }
  }

  // ---------------------------------------------------------------------
  // validateMobile: /^[6-9]\d{9}$/ after removing /\D/g
  // ---------------------------------------------------------------------

  /** `s.replace(/\D/g, '')`: only the ASCII digits, in order. */
  function DigitsOnly(s: string): (r: string)
    ensures AllDigits(r) && |r| <= |s|
  {
    if s == [] then []
    else if IsDigit(s[0]) then [s[0]] + DigitsOnly(s[1..])
    else DigitsOnly(s[1..])
  }

  /** Removing non-digits is a filter: it acts piece by piece. */
  lemma {:induction false} DigitsOnlyAppend(a: string, b: string)
    ensures DigitsOnly(a + b) == DigitsOnly(a) + DigitsOnly(b)
    decreases |a|
  {
    if a != [] {
      assert (a + b)[1..] == a[1..] + b;
      DigitsOnlyAppend(a[1..], b);
    } else {
      assert a + b == b;
    }
  }

  /** A string of digits is kept whole. */
  lemma {:induction false} DigitsOnlyOfDigits(s: string)
    requires AllDigits(s)
    ensures DigitsOnly(s) == s
    decreases |s|
  {
    if s != [] {
      DigitsOnlyOfDigits(s[1..]);
      assert [s[0]] + s[1..] == s;
    }
  }

  /** `validateMobile(mobile)`. */
  predicate ValidateMobile(mobile: string) {
    var d := DigitsOnly(mobile);
    |d| == 10 && '6' <= d[0] <= '9'
  }

  /** The check looks only at the digits: separators are ignored, and a
      number given with its country code (12 digits) is refused. */
  lemma MobileIgnoresSeparators(mobile: string)
    ensures ValidateMobile(DigitsOnly(mobile)) == ValidateMobile(mobile)
  {
    DigitsOnlyOfDigits(DigitsOnly(mobile));
  }

  /** Accepted numbers are ten digits, the first of them 6 to 9. */
  lemma MobileMeaning(mobile: string)
    requires AllDigits(mobile)
    ensures ValidateMobile(mobile) <==> |mobile| == 10 && '6' <= mobile[0] <= '9'
  {
    DigitsOnlyOfDigits(mobile);
  }

  /** "+91 98765 43210" carries the country code and so has twelve digits. */
  lemma MobileCountryCode(prefix: string, local: string)
    requires AllDigits(prefix) && |prefix| == 2 && AllDigits(local) && |local| == 10
    ensures !ValidateMobile(prefix + local)
  {
    DigitsOnlyOfDigits(prefix + local);
  }

  // ---------------------------------------------------------------------
  // validateCustomerId: /^[A-Z0-9]{4,10}$/i
  // ---------------------------------------------------------------------

  /** `[A-Z0-9]` under the `i` flag: an ASCII letter of either case or a digit
      (without the `u` flag no non-ASCII character folds onto `A-Z`). */
  predicate IdChar(c: char) { IsAsciiLetter(c) || IsDigit(c) }

  /** `validateCustomerId(customerId)`. */
  predicate ValidateCustomerId(id: string) {
    4 <= |id| <= 10 && forall k :: 0 <= k < |id| ==> IdChar(id[k])
  }

  /** The check ignores case. */
  lemma CustomerIdIgnoresCase(id: string)
    ensures ValidateCustomerId(ToLowerAscii(id)) == ValidateCustomerId(id)
  {
  }

  /** A valid id passes `sanitizeInput` unchanged. */
  lemma SanitizeKeepsCustomerId(id: string)
    requires ValidateCustomerId(id)
    ensures SanitizeInput(Some(id)) == id
  {
    assert IdChar(id[0]) && IdChar(id[|id| - 1]);
    assert !IsSpace(id[0]) && !IsSpace(id[|id| - 1]);
    TrimOfTrimmed(id);
    RemoveAnglesKeeps(id);
  }

  // ---------------------------------------------------------------------
  // validateConsultationForm
  // ---------------------------------------------------------------------

  /** The form fields; `None` is a missing (`undefined`/`null`) field. */
  datatype FormData = FormData(
    name: Option<string>, dob: Option<string>, time: Option<string>,
    place: Option<string>, mobile: Option<string>, email: Option<string>,
    query: Option<string>)

  /** `!x || x.trim().length < n`, the length in UTF-16 code units. */
  predicate ShortText(x: Option<string>, n: nat) { Falsy(x) || Utf16Length(Trim(x.value)) < n }

  /** The seven keys the error map can hold. */
  datatype Field = Name | Dob | Time | Place | Mobile | Email | Query

  /** The key as the error object spells it. */
  function FieldKey(k: Field): string {
    match k
    case Name => "name"
    case Dob => "dob"
    case Time => "time"
    case Place => "place"
    case Mobile => "mobile"
    case Email => "email"
    case Query => "query"
  }

  /** The message stored under each key. */
  function FieldMessage(k: Field): string {
    match k
    case Name => "Name must be at least 2 characters"
    case Dob => "Invalid date of birth format (MMDDYY)"
    case Time => "Time of birth is required"
    case Place => "Place of birth is required"
    case Mobile => "Invalid mobile number"
    case Email => "Invalid email address"
    case Query => "Query must be at least 10 characters"
  }

  predicate NameBad(f: FormData) { ShortText(f.name, 2) }
  predicate DobBad(f: FormData) { Falsy(f.dob) || !Calculations.ValidateDOB(f.dob.value) }
  predicate TimeBad(f: FormData) { Falsy(f.time) }
  predicate PlaceBad(f: FormData) { ShortText(f.place, 2) }
  predicate MobileBad(f: FormData) { Falsy(f.mobile) || !ValidateMobile(f.mobile.value) }
  predicate EmailBad(f: FormData) { Falsy(f.email) || !ValidateEmail(f.email.value) }
  predicate QueryBad(f: FormData) { ShortText(f.query, 10) }

  /** Every entry of the map carries its field's message. */
  predicate MessagesMatch(errors: map<Field, string>) {
    forall k :: k in errors ==> errors[k] == FieldMessage(k)
  }

  /** The error object is empty exactly when none of the seven keys is set. */
  lemma EmptyIffNoKey(m: map<Field, string>)
    ensures |m| == 0 <==> !(Name in m || Dob in m || Time in m || Place in m
                            || Mobile in m || Email in m || Query in m)
  {
    if !(Name in m || Dob in m || Time in m || Place in m || Mobile in m || Email in m || Query in m) {
      assert m.Keys == {} by {
        forall k | k in m.Keys ensures false {
          match k
          case Name => case Dob => case Time => case Place =>
          case Mobile => case Email => case Query =>
        }
      }
      assert m == map[];
    }
  }

  /** One `if (…) errors.<key> = '…'` step: sets key `k` when `failed`,
      leaves every other key alone, and keeps every message matching. */
  method NoteError(errors: map<Field, string>, k: Field, failed: bool) returns (r: map<Field, string>)
    requires MessagesMatch(errors)
    ensures MessagesMatch(r)
    ensures k in r <==> failed || k in errors
    ensures forall j :: j != k ==> (j in r <==> j in errors)
  {
    r := errors;
    if failed {
      r := r[k := FieldMessage(k)];
    }
  }

  /** The seven guarded assignments in order, given which fields failed:
      the map holds a key exactly for each failure, with its message. */
  method CollectErrors(nameBad: bool, dobBad: bool, timeBad: bool, placeBad: bool,
                       mobileBad: bool, emailBad: bool, queryBad: bool)
    returns (errors: map<Field, string>)
    ensures Name in errors <==> nameBad
    ensures Dob in errors <==> dobBad
    ensures Time in errors <==> timeBad
    ensures Place in errors <==> placeBad
    ensures Mobile in errors <==> mobileBad
    ensures Email in errors <==> emailBad
    ensures Query in errors <==> queryBad
    ensures MessagesMatch(errors)
  {
    errors := map[];
    errors := NoteError(errors, Name, nameBad);
    errors := NoteError(errors, Dob, dobBad);
    errors := NoteError(errors, Time, timeBad);
    errors := NoteError(errors, Place, placeBad);
    errors := NoteError(errors, Mobile, mobileBad);
    errors := NoteError(errors, Email, emailBad);
    errors := NoteError(errors, Query, queryBad);
  }

  /** `validateConsultationForm(formData)`: the error map gets an entry for
      each failing field, each with its own message, and nothing else; the
      form is valid iff the map is empty, that is iff every field passes. */
  method ValidateConsultationForm(f: FormData) returns (isValid: bool, errors: map<Field, string>)
    ensures Name in errors <==> NameBad(f)
    ensures Dob in errors <==> DobBad(f)
    ensures Time in errors <==> TimeBad(f)
    ensures Place in errors <==> PlaceBad(f)
    ensures Mobile in errors <==> MobileBad(f)
    ensures Email in errors <==> EmailBad(f)
    ensures Query in errors <==> QueryBad(f)
    ensures MessagesMatch(errors)
    ensures isValid <==> |errors| == 0
    ensures isValid <==> !(NameBad(f) || DobBad(f) || TimeBad(f) || PlaceBad(f)
                           || MobileBad(f) || EmailBad(f) || QueryBad(f))
  {
    errors := CollectErrors(NameBad(f), DobBad(f), TimeBad(f), PlaceBad(f),
                            MobileBad(f), EmailBad(f), QueryBad(f));
    isValid := |errors| == 0;
    EmptyIffNoKey(errors);
  }
}
