/**
 * The registration page's client-side rules: the password strength score
 * shown under the password field, its label and colour, and the checks
 * `handleSubmit` makes before it calls `register`.
 */
module RegisterForm {
  import opened Wrappers
  import opened JsText

  /** `/[A-Z]/.test(pass)` */
  predicate HasUpper(s: string) { exists i :: 0 <= i < |s| && IsUpper(s[i]) }

  /** `/[a-z]/.test(pass)` */
  predicate HasLower(s: string) { exists i :: 0 <= i < |s| && IsLower(s[i]) }

  /** `/[0-9]/.test(pass)` */
  predicate HasDigit(s: string) { exists i :: 0 <= i < |s| && IsDigit(s[i]) }

  predicate IsSymbol(c: char) { !IsUpper(c) && !IsLower(c) && !IsDigit(c) }

  /** `/[^A-Za-z0-9]/.test(pass)` */
  predicate HasSymbol(s: string) { exists i :: 0 <= i < |s| && IsSymbol(s[i]) }

  /** `pass.length >= 8`, counted in UTF-16 code units. */
  predicate LongEnough(s: string) { Utf16Length(s) >= 8 }

  function Point(b: bool): nat { if b then 1 else 0 }

  /** The score: one point for each of the five criteria the password meets, so 0 for the empty password and never above 5. */
  function Strength(pass: string): (score: nat)
    ensures score <= 5
    ensures pass == [] ==> score == 0
  {
    Point(LongEnough(pass)) + Point(HasUpper(pass)) + Point(HasLower(pass)) + Point(HasDigit(pass)) + Point(HasSymbol(pass))
  }

  /** `getPasswordStrength(pass)`: the counter is bumped once per criterion met, so it stays within 0..5. */
  method GetPasswordStrength(pass: string) returns (strength: nat)
    ensures strength == Strength(pass)
    ensures strength <= 5
  {
    strength := 0;
    if Utf16Length(pass) >= 8 { strength := strength + 1; }
    if HasUpper(pass) { strength := strength + 1; }
    if HasLower(pass) { strength := strength + 1; }
    if HasDigit(pass) { strength := strength + 1; }
    if HasSymbol(pass) { strength := strength + 1; }
  }

  /** The top score is reached exactly when every criterion is met. */
  lemma ExcellentIffAllCriteria(pass: string)
    ensures Strength(pass) <= 5
    ensures Strength(pass) == 5 <==>
              LongEnough(pass) && HasUpper(pass) && HasLower(pass) && HasDigit(pass) && HasSymbol(pass)
  {
  }

  /** Every character is upper case, lower case, a digit or something else, so any non-empty password scores at least 1. */
  lemma NonEmptyScoresAtLeastOne(pass: string)
    requires pass != []
    ensures Strength(pass) >= 1
  {
    var c := pass[0];
    if IsUpper(c) {
      assert HasUpper(pass);
    } else if IsLower(c) {
      assert HasLower(pass);
    } else if IsDigit(c) {
      assert HasDigit(pass);
    } else {
      assert HasSymbol(pass);
    }
  }

  /** Typing one more character never lowers the score. */
  lemma AppendNeverLowers(pass: string, c: char)
    ensures Strength(pass + [c]) >= Strength(pass)
  {
    var s := pass + [c];
    Utf16LengthAppend(pass, c);
    if HasUpper(pass) {
      var i :| 0 <= i < |pass| && IsUpper(pass[i]);
      assert s[i] == pass[i];
    }
    if HasLower(pass) {
      var i :| 0 <= i < |pass| && IsLower(pass[i]);
      assert s[i] == pass[i];
    }
    if HasDigit(pass) {
      var i :| 0 <= i < |pass| && IsDigit(pass[i]);
      assert s[i] == pass[i];
    }
    if HasSymbol(pass) {
      var i :| 0 <= i < |pass| && IsSymbol(pass[i]);
      assert s[i] == pass[i];
    }
  }

  const StrengthLabels: seq<string> := ["", "Weak", "Fair", "Good", "Strong", "Excellent"]
  const StrengthColors: seq<string> := ["", "bg-red-500", "bg-orange-500", "bg-yellow-500", "bg-neo-blue", "bg-green-500"]

  /** `strengthLabels[passwordStrength]`: always in range, and blank only for the score 0. */
  function StrengthLabel(pass: string): (text: string)
    ensures text == "" <==> Strength(pass) == 0
  {
    ExcellentIffAllCriteria(pass);
    StrengthLabels[Strength(pass)]
  }

  /** `strengthColors[passwordStrength]`: always in range, and blank only for the score 0. */
  function StrengthColor(pass: string): (color: string)
    ensures color == "" <==> Strength(pass) == 0
  {
    ExcellentIffAllCriteria(pass);
    StrengthColors[Strength(pass)]
  }

  /** The indicator is drawn only for a non-empty password, and then it always has a label and a colour. */
  lemma IndicatorIsNeverBlank(pass: string)
    requires pass != []
    ensures StrengthLabel(pass) != "" && StrengthColor(pass) != ""
  {
    NonEmptyScoresAtLeastOne(pass);
  }

  // ---- handleSubmit ----

  const MismatchMessage := "Passwords do not match"
  const TooShortMessage := "Password must be at least 6 characters"
  const FallbackMessage := "Registration failed. Please try again."

  /** The client-side checks, in order: the confirmation first, then the length. */
  function SubmitGuard(password: string, confirmPassword: string): (message: Option<string>)
    ensures password != confirmPassword <==> message == Some(MismatchMessage)
    ensures password == confirmPassword && Utf16Length(password) < 6 <==> message == Some(TooShortMessage)
    ensures message.None? <==> password == confirmPassword && Utf16Length(password) >= 6
  {
    if password != confirmPassword then Some(MismatchMessage)
    else if Utf16Length(password) < 6 then Some(TooShortMessage)
    else None
  }

  /** How the awaited `register` call ended: success, or a rejection carrying `err.response?.data?.error`. */
  datatype RegisterOutcome = Registered | Rejected(serverError: Option<string>)

  /** `err.response?.data?.error || "Registration failed. Please try again."` */
  function FailureMessage(serverError: Option<string>): (message: string)
    ensures message != []
    ensures Truthy(serverError) ==> message == serverError.value
    ensures !Truthy(serverError) ==> message == FallbackMessage
  {
    if Truthy(serverError) then serverError.value else FallbackMessage
  }

  /** The arguments of one `register(email, name, password)` call. */
  datatype RegisterCall = RegisterCall(email: string, name: string, password: string)

  /** The page's state, as far as `handleSubmit` reads and writes it. */
  class Form {
    var name: string
    var email: string
    var password: string
    var confirmPassword: string
    var error: string
    var isLoading: bool
    /** Every `register` call made, in order. */
    var registerCalls: seq<RegisterCall>
    /** Where `navigate` last sent the user. */
    var location: Option<string>

    constructor ()
      ensures name == "" && email == "" && password == "" && confirmPassword == ""
      ensures error == "" && !isLoading && registerCalls == [] && location == None
    {
      name := "";
      email := "";
      password := "";
      confirmPassword := "";
      error := "";
      isLoading := false;
      registerCalls := [];
      location := None;
    }

    /**
     * `handleSubmit`: clear the error, stop at the first failed check with its
     * message, otherwise call `register` once and either navigate home or show
     * the server's error; loading is switched off at the end either way.
     */
    method HandleSubmit(outcome: RegisterOutcome)
      modifies this
      ensures name == old(name) && email == old(email)
      ensures password == old(password) && confirmPassword == old(confirmPassword)
      ensures SubmitGuard(password, confirmPassword).Some? ==>
                && error == SubmitGuard(password, confirmPassword).value
                && registerCalls == old(registerCalls)
                && isLoading == old(isLoading)
                && location == old(location)
      ensures SubmitGuard(password, confirmPassword).None? ==>
                && registerCalls == old(registerCalls) + [RegisterCall(email, name, password)]
                && !isLoading
                && (outcome.Registered? ==> error == "" && location == Some("/"))
                && (outcome.Rejected? ==> error == FailureMessage(outcome.serverError) && location == old(location))
    {
      error := "";
      if password != confirmPassword {
        error := MismatchMessage;
        return;
      }
      if Utf16Length(password) < 6 {
        error := TooShortMessage;
        return;
      }
      isLoading := true;
      registerCalls := registerCalls + [RegisterCall(email, name, password)];
      if outcome.Registered? {
        location := Some("/");
      } else {
        error := FailureMessage(outcome.serverError);
      }
      isLoading := false;
    }
  }
}
