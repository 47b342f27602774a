/** The sign-up form checks of src/Componentes/Autenticacion/Registro.jsx: a
    per-field validator that keeps one error entry per failing field, a
    password check against a length floor and common sequences, and the
    submit gate that holds the form back while any error is recorded. */
module RegistroForm {
  import opened Common
  import opened RegistroRoutes

  datatype Field =
    | Nombre | Apellidopa | Apellidoma | Telefono | Correo | Password
    | Tipousuario | PreguntaSecreta | RespuestaSecreta

  /** The message each field shows when it fails; `PasswordLengthMsg` is the
      one that announces 8 to 15 characters. */
  datatype FieldMsg = NameMsg | PhoneMsg | PasswordLengthMsg | EmailMsg | TipoMsg | PreguntaMsg | RespuestaMsg

  function MessageFor(f: Field): FieldMsg
  {
    match f
    case Nombre => NameMsg
    case Apellidopa => NameMsg
    case Apellidoma => NameMsg
    case Telefono => PhoneMsg
    case Correo => EmailMsg
    case Password => PasswordLengthMsg
    case Tipousuario => TipoMsg
    case PreguntaSecreta => PreguntaMsg
    case RespuestaSecreta => RespuestaMsg
  }

  const ACCENTED: string := "áéíóúÁÉÍÓÚñÑüÜ"
  const PASSWORD_SYMBOLS: string := "!@#$%^&*()_+-=[]{};':\"\\|,.<>/?"

  predicate IsAsciiLetter(c: char)
  {
    ('a' <= c <= 'z') || ('A' <= c <= 'Z')
  }

  predicate IsNameChar(c: char)
  {
    IsAsciiLetter(c) || c in ACCENTED || IsJsSpace(c)
  }

  predicate IsPasswordChar(c: char)
  {
    IsAsciiLetter(c) || c in ACCENTED || IsDigit(c) || c in PASSWORD_SYMBOLS
  }

  /** Names: 4 to 16 letters (accented ones included) or spaces. */
  predicate NameShape(v: string)
  {
    4 <= |v| <= 16 && forall i :: 0 <= i < |v| ==> IsNameChar(v[i])
  }

  /** Telephone: exactly ten digits. */
  predicate PhoneShape10(v: string)
  {
    |v| == 10 && AllDigits(v)
  }

  /** The password pattern as written: 5 to 20 allowed characters. */
  predicate PasswordShape(v: string)
  {
    5 <= |v| <= 20 && forall i :: 0 <= i < |v| ==> IsPasswordChar(v[i])
  }

  /** Whether `value` passes the check of field `name`. The address check is
      the same pattern the sign-up route applies. */
  predicate FieldValid(name: Field, value: string)
  {
    match name
    case Nombre => NameShape(value)
    case Apellidopa => NameShape(value)
    case Apellidoma => NameShape(value)
    case Telefono => PhoneShape10(value)
    case Password => PasswordShape(value)
    case Correo => RegistrationEmailShape(value)
    case Tipousuario => value == "Cliente" || value == "Propietario"
    case PreguntaSecreta => value != ""
    case RespuestaSecreta => |value| >= 3
  }

  // ---------------------------------------------------------------------------
  // validatePassword
  // ---------------------------------------------------------------------------

  const MIN_PASSWORD_LENGTH: nat := 8
  const COMMON_PATTERNS: seq<string> := ["12345", "password", "qwerty", "abcdef"]

  datatype PasswordError = NoPasswordError | TooShort | CommonSequence

  /** The password verdict: a common sequence anywhere in the lower-cased
      password outranks a length below eight. */
  predicate HasCommonPattern(password: string)
  {
    exists k | 0 <= k < |COMMON_PATTERNS| :: Contains(ToLower(password), COMMON_PATTERNS[k])
  }

  function PasswordVerdict(password: string): PasswordError
  {
    if HasCommonPattern(password) then CommonSequence
    else if |password| < MIN_PASSWORD_LENGTH then TooShort
    else NoPasswordError
  }

  /** `validatePassword`: the length check, then the patterns in order until
      the first that occurs. */
  method CheckPassword(password: string) returns (verdict: PasswordError)
    ensures verdict == CommonSequence <==> HasCommonPattern(password)
    ensures verdict == TooShort <==> !HasCommonPattern(password) && |password| < MIN_PASSWORD_LENGTH
    ensures verdict == NoPasswordError <==> !HasCommonPattern(password) && |password| >= MIN_PASSWORD_LENGTH
  {
    verdict := NoPasswordError;
    if |password| < MIN_PASSWORD_LENGTH {
      verdict := TooShort;
    }
    var lowered := ToLower(password);
    var i := 0;
    while i < |COMMON_PATTERNS|
      invariant 0 <= i <= |COMMON_PATTERNS|
      invariant verdict == (if |password| < MIN_PASSWORD_LENGTH then TooShort else NoPasswordError)
      invariant forall k :: 0 <= k < i ==> !Contains(lowered, COMMON_PATTERNS[k])
    {
      if Contains(lowered, COMMON_PATTERNS[i]) {
        verdict := CommonSequence;
        break;
      }
      i := i + 1;
    }
  }

  /** A pattern whose first character never occurs cannot occur. */
  lemma AbsentFirstChar(s: string, p: string)
    requires p != [] && p[0] !in s
    ensures !Contains(s, p)
  {
    forall i | 0 <= i <= |s| - |p|
      ensures !OccursAt(s, p, i)
    {
      assert s[i] in s;
    }
  }

  /** A password holding none of the patterns' first letters, in either
      case, holds none of the patterns. */
  lemma NoPatternInitial(password: string)
    requires forall i :: 0 <= i < |password| ==> password[i] !in "1pPqQaA"
    ensures !HasCommonPattern(password)
  {
    var lowered := ToLower(password);
    forall k | 0 <= k < |COMMON_PATTERNS|
      ensures !Contains(lowered, COMMON_PATTERNS[k])
    {
      assert COMMON_PATTERNS[k][0] in "1pqa";
      AbsentFirstChar(lowered, COMMON_PATTERNS[k]);
    }
  }

  // ---------------------------------------------------------------------------
  // The form state
  // ---------------------------------------------------------------------------

  /** The recorded errors: one entry per field that failed its last check,
      and the password verdict. */
  class Registro {
    var formErrors: map<Field, FieldMsg>
    var passwordError: PasswordError

    /** A fresh form has no errors recorded, so the gate is open until a
        field is checked. */
    constructor ()
      ensures formErrors == map[] && passwordError == NoPasswordError
      ensures MaySubmit()
    {
      formErrors := map[];
      passwordError := NoPasswordError;
    }

    /** `validateField(name, value)`: the field's entry is set when it fails
        and removed when it passes; every other entry stays as it was. */
    method ValidateField(name: Field, value: string)
      modifies this
      ensures name in formErrors <==> !FieldValid(name, value)
      ensures name in formErrors ==> formErrors[name] == MessageFor(name)
      ensures forall f :: f != name ==> (f in formErrors <==> f in old(formErrors))
      ensures forall f :: f != name && f in formErrors ==> formErrors[f] == old(formErrors)[f]
      ensures passwordError == old(passwordError)
    {
      var errors := formErrors;
      if !FieldValid(name, value) {
        errors := errors[name := MessageFor(name)];
      } else {
        errors := errors - {name};
      }
      formErrors := errors;
    }

    /** `handleChange`: a password change also runs the password check. */
    method HandleChange(name: Field, value: string)
      modifies this
      ensures name in formErrors <==> !FieldValid(name, value)
      ensures forall f :: f != name ==> (f in formErrors <==> f in old(formErrors))
      ensures forall f :: f != name && f in formErrors ==> formErrors[f] == old(formErrors)[f]
      ensures passwordError == if name == Password then PasswordVerdict(value) else old(passwordError)
    {
      if name == Password {
        passwordError := CheckPassword(value);
      }
      ValidateField(name, value);
    }

    /** The submit gate: no field error and no password error. */
    predicate MaySubmit()
      reads this
    {
      |formErrors| == 0 && passwordError == NoPasswordError
    }
  }

  // ---------------------------------------------------------------------------
  // The password length announced and the one accepted
  // ---------------------------------------------------------------------------

  /** The password pattern as its message announces it: 8 to 15 allowed
      characters. */
  predicate PasswordShapeIntended(v: string)
  {
    8 <= |v| <= 15 && forall i :: 0 <= i < |v| ==> IsPasswordChar(v[i])
  }

  /** As written, a sixteen-character password passes both the field check
      and the password check, although the field's message announces at most
      fifteen characters. */
  lemma SixteenCharPasswordAccepted()
    ensures var p := "Zxcvbnm9Zxcvbnm9";
            |p| == 16 && FieldValid(Password, p) && PasswordVerdict(p) == NoPasswordError
  {
    var half := "Zxcvbnm9";
    var p := half + half;
    assert p == "Zxcvbnm9Zxcvbnm9";
    forall i | 0 <= i < |p|
      ensures p[i] !in "1pPqQaA" && IsPasswordChar(p[i])
    {
      SafePasswordChar(half, p[i]);
    }
    NoPatternInitial(p);
  }

  lemma SafePasswordChar(half: string, c: char)
    requires half == "Zxcvbnm9" && c in half + half
    ensures c !in "1pPqQaA" && IsPasswordChar(c)
  {
    assert c in half;
  }

  /** With the announced pattern, the field check and the password check
      together accept exactly what the written ones accept minus the passwords
      longer than fifteen characters: the correction refuses the sixteen-character
      password above and changes nothing else. Every password it accepts has 8
      to 15 allowed characters and no common sequence, and every such password
      is accepted. */
  lemma IntendedPasswordBounds(p: string)
    ensures PasswordShapeIntended(p) && PasswordVerdict(p) == NoPasswordError <==>
              FieldValid(Password, p) && PasswordVerdict(p) == NoPasswordError && |p| <= 15
    ensures PasswordShapeIntended(p) && PasswordVerdict(p) == NoPasswordError <==>
              && 8 <= |p| <= 15
              && (forall i :: 0 <= i < |p| ==> IsPasswordChar(p[i]))
              && !HasCommonPattern(p)
    ensures p == "Zxcvbnm9Zxcvbnm9" ==> !PasswordShapeIntended(p) && FieldValid(Password, p)
  {
    if p == "Zxcvbnm9Zxcvbnm9" {
      SixteenCharPasswordAccepted();
    }
  }
}
