/** The password-change dialog: a new password is submitted only when it is long enough
    and matches its confirmation, with the length error reported first. */
module PasswordForm {
  import opened Wrappers
  import opened Text

  /** The shortest password the application accepts, in UTF-16 code units (JavaScript's
      `length`). */
  const MinPasswordLength: nat := 6

  datatype PasswordError = TooShort | Mismatch

  function PasswordErrorMessage(e: PasswordError): string {
    match e
    case TooShort => "A senha deve ter pelo menos 6 caracteres."
    case Mismatch => "As senhas não coincidem."
  }

  /** Validates the dialog. On success the password to hand to the save callback. */
  function HandleSave(password: string, confirmation: string): (r: Result<string, PasswordError>)
    ensures r.Success? <==> Utf16Length(password) >= MinPasswordLength && password == confirmation
    ensures r.Success? ==> r.value == password
    ensures Utf16Length(password) < MinPasswordLength ==> r == Failure(TooShort)
    ensures Utf16Length(password) >= MinPasswordLength && password != confirmation ==> r == Failure(Mismatch)
  {
    if Utf16Length(password) < MinPasswordLength then Failure(TooShort)
    else if password != confirmation then Failure(Mismatch)
    else Success(password)
  }

  /** The length check takes precedence: a short password that also differs from its
      confirmation is reported as too short. */
  lemma LengthErrorFirst(password: string, confirmation: string)
    requires Utf16Length(password) < MinPasswordLength && password != confirmation
    ensures HandleSave(password, confirmation) == Failure(TooShort)
  {
  }

  /** Length is counted in code units: three characters outside the Basic Multilingual
      Plane (three emoji, say) already make a long enough password. */
  lemma {:induction false} LengthCountsCodeUnits(a: char, b: char, c: char)
    requires a as int >= 0x10000 && b as int >= 0x10000 && c as int >= 0x10000
    ensures HandleSave([a, b, c], [a, b, c]) == Success([a, b, c])
  {
    var p := [a, b, c];
    assert p[1..] == [b, c] && p[1..][1..] == [c] && p[1..][1..][1..] == [];
    assert |Utf16([c])| == 2;
    assert |Utf16([b, c])| == 4;
    assert Utf16Length(p) == 6;
  }
}
