/**
 * The profile form's validation and submission
 * (app/Components/UserDetailsModal.tsx): both fields must be non-blank and
 * the phone number must match `^\+?[\d\s\-\(\)]+$`.
 */
module UserDetailsForm {
  import opened JsText

  const NameRequired: string := "Name is required"
  const PhoneRequired: string := "Phone number is required"
  const PhoneInvalid: string := "Please enter a valid phone number"

  /** One character of the class `[\d\s\-\(\)]`. */
  predicate IsPhoneClassChar(c: char)
  {
    ('0' <= c <= '9') || IsJsSpace(c) || c == '-' || c == '(' || c == ')'
  }

  /** `[\d\s\-\(\)]+$` from some position: one or more class characters up to the end. */
  predicate ClassCharsToEnd(s: string)
  {
    |s| > 0 && forall i :: 0 <= i < |s| ==> IsPhoneClassChar(s[i])
  }

  /**
   * The whole pattern, anchored at both ends: `\+?` either takes a leading
   * `+` or takes nothing, and the rest must be class characters.
   */
  predicate MatchesPhonePattern(s: string)
  {
    (|s| > 0 && s[0] == '+' && ClassCharsToEnd(s[1..])) || ClassCharsToEnd(s)
  }

  /**
   * A character-by-character reading of the pattern: non-empty, not `+`
   * alone, a `+` only in first position, and every other character from
   * the class.
   */
  lemma PhonePatternByCharacter(s: string)
    ensures MatchesPhonePattern(s) <==>
      && s != [] && s != "+"
      && forall i :: 0 <= i < |s| ==> IsPhoneClassChar(s[i]) || (i == 0 && s[i] == '+')
  {
    assert !IsPhoneClassChar('+');
    if s != [] && s != "+" && forall i :: 0 <= i < |s| ==> IsPhoneClassChar(s[i]) || (i == 0 && s[i] == '+') {
      if s[0] == '+' {
        assert |s| > 1;
        assert forall i :: 0 <= i < |s| - 1 ==> s[1..][i] == s[i + 1];
      } else {
        assert ClassCharsToEnd(s);
      }
    }
    if MatchesPhonePattern(s) {
      if ClassCharsToEnd(s) {
        assert IsPhoneClassChar(s[0]);
      } else {
        assert s[0] == '+' && ClassCharsToEnd(s[1..]);
        assert |s| > 1;
        forall i | 1 <= i < |s| ensures IsPhoneClassChar(s[i]) {
          assert s[i] == s[1..][i - 1];
        }
      }
    }
  }

  /** A lone `+` fails: at least one class character must follow it. */
  lemma PlusAloneRejected()
    ensures !MatchesPhonePattern("+")
  {
    assert "+"[1..] == [];
    assert !IsPhoneClassChar("+"[0]);
  }

  /** A `+` anywhere but first fails. */
  lemma {:induction false} PlusOnlyFirst(s: string, k: nat)
    requires 0 < k < |s| && s[k] == '+'
    ensures !MatchesPhonePattern(s)
  {
    PhonePatternByCharacter(s);
  }

  /** The keys of the `newErrors` object: one optional message per field. */
  datatype FormErrors = FormErrors(name: Option<string>, phoneNumber: Option<string>)

  const NoErrors: FormErrors := FormErrors(None, None)

  /**
   * What `validateForm` records: `'Name is required'` for a blank name;
   * `'Phone number is required'` for a blank phone, in which case the
   * pattern is not consulted; otherwise `'Please enter a valid phone number'`
   * when the untrimmed phone fails the pattern.
   */
  function ErrorsFor(name: string, phoneNumber: string): (e: FormErrors)
    ensures e.name.Some? <==> Trim(name) == ""
    ensures e.name.Some? ==> e.name.value == NameRequired
    ensures e.phoneNumber.Some? <==> Trim(phoneNumber) == "" || !MatchesPhonePattern(phoneNumber)
    ensures Trim(phoneNumber) == "" ==> e.phoneNumber == Some(PhoneRequired)
    ensures Trim(phoneNumber) != "" && !MatchesPhonePattern(phoneNumber) ==> e.phoneNumber == Some(PhoneInvalid)
  {
    var nameError := if Trim(name) == "" then Some(NameRequired) else None;
    var phoneError :=
      if Trim(phoneNumber) == "" then Some(PhoneRequired)
      else if !MatchesPhonePattern(phoneNumber) then Some(PhoneInvalid)
      else None;
    FormErrors(nameError, phoneError)
  }

  /** The validity of the form, stated on the fields themselves. */
  predicate FormValid(name: string, phoneNumber: string)
  {
    && (exists i :: 0 <= i < |name| && !IsJsSpace(name[i]))
    && (exists i :: 0 <= i < |phoneNumber| && !IsJsSpace(phoneNumber[i]))
    && MatchesPhonePattern(phoneNumber)
  }

  /**
   * "No keys in the errors object" is exactly: the name has a non-space
   * character, the phone has one, and the untrimmed phone matches.
   */
  lemma NoErrorsIffValid(name: string, phoneNumber: string)
    ensures ErrorsFor(name, phoneNumber) == NoErrors <==> FormValid(name, phoneNumber)
  {
    TrimEmptyIffAllSpace(name);
    TrimEmptyIffAllSpace(phoneNumber);
  }

  /** A pattern match already rules out a blank phone except a whitespace-only one. */
  lemma WhitespacePhoneIsRequiredNotInvalid(phoneNumber: string)
    requires phoneNumber != [] && forall i :: 0 <= i < |phoneNumber| ==> IsJsSpace(phoneNumber[i])
    ensures MatchesPhonePattern(phoneNumber)
    ensures ErrorsFor("x", phoneNumber).phoneNumber == Some(PhoneRequired)
  {
    TrimEmptyIffAllSpace(phoneNumber);
  }

  /** What `onSubmit` receives. */
  datatype Submission = Submission(name: string, phoneNumber: string)

  /** The modal's state cells that validation reads and writes. */
  class UserDetailsModal {
    var name: string
    var phoneNumber: string
    var errors: FormErrors

    constructor (initialName: Option<string>, initialPhone: Option<string>)
      ensures name == (if Truthy(initialName) then initialName.value else "")
      ensures phoneNumber == (if Truthy(initialPhone) then initialPhone.value else "")
      ensures errors == NoErrors
    {
      name := if Truthy(initialName) then initialName.value else "";
      phoneNumber := if Truthy(initialPhone) then initialPhone.value else "";
      errors := NoErrors;
    }

    /** `validateForm`: fills the errors key by key, stores them, and reports whether there are none. */
    method ValidateForm() returns (valid: bool)
      modifies this`errors
      ensures errors == ErrorsFor(name, phoneNumber)
      ensures valid <==> FormValid(name, phoneNumber)
    {
      var newErrors := NoErrors;
      if Trim(name) == "" {
        newErrors := newErrors.(name := Some(NameRequired));
      }
      if Trim(phoneNumber) == "" {
        newErrors := newErrors.(phoneNumber := Some(PhoneRequired));
      } else if !MatchesPhonePattern(phoneNumber) {
        newErrors := newErrors.(phoneNumber := Some(PhoneInvalid));
      }
      errors := newErrors;
      valid := newErrors == NoErrors;
      NoErrorsIffValid(name, phoneNumber);
    }

    /** `handleSubmit`: the callback fires only for a valid form, with both values trimmed. */
    method HandleSubmit() returns (submitted: Option<Submission>)
      modifies this`errors
      ensures errors == ErrorsFor(name, phoneNumber)
      ensures submitted.Some? <==> FormValid(name, phoneNumber)
      ensures submitted.Some? ==> submitted.value == Submission(Trim(name), Trim(phoneNumber))
    {
      var valid := ValidateForm();
      if valid {
        submitted := Some(Submission(Trim(name), Trim(phoneNumber)));
      } else {
        submitted := None;
      }
    }
  }
}
