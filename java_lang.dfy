/** The few pieces of the Java platform the validator relies on: nullable references,
    the exception classes it throws and catches, string conversion and
    `StringUtils.isNotBlank` from Apache Commons Lang. */
module JavaLang {

  /** A Java reference that may be `null`. */
  datatype Nullable<+T> = Null | NonNull(value: T)

  /** The exceptions that can reach the validator, by the class the `catch` clauses test. */
  datatype Throwable =
    | SQLException(message: string)
      /** com.pingidentity.sdk.password.PasswordValidationException, with its optional cause */
    | PasswordValidationException(message: string, cause: Nullable<Throwable>)
      /** com.pingidentity.sdk.password.PasswordCredentialValidatorAuthnException */
    | PasswordCredentialValidatorAuthnException(recoverable: bool, messageKey: string)
      /** any other java.lang.Exception, checked or unchecked */
    | OtherException(message: string)
      /** a java.lang.Error: a Throwable that `catch (Exception ex)` does not catch */
    | Error(message: string)

  /** Java's string conversion of a reference in `+`: null prints as "null". */
  function JavaString(s: Nullable<string>): string
  {
    match s
    case Null => "null"
    case NonNull(v) => v
  }

  /** java.lang.Character.isWhitespace on a character: the Unicode space, line and paragraph
      separators other than the three non-breaking spaces, plus the ASCII controls
      U+0009..U+000D and U+001C..U+001F. */
  predicate IsWhitespace(c: char)
  {
    || ('\U{0009}' <= c <= '\U{000D}')
    || ('\U{001C}' <= c <= '\U{0020}')
    || c == '\U{1680}'
    || ('\U{2000}' <= c <= '\U{2006}')
    || ('\U{2008}' <= c <= '\U{200A}')
    || c == '\U{2028}' || c == '\U{2029}'
    || c == '\U{205F}' || c == '\U{3000}'
  }

  /** True when every character of `s` is whitespace (vacuously for the empty string). */
  function AllWhitespace(s: string): (b: bool)
    ensures b <==> forall i :: 0 <= i < |s| ==> IsWhitespace(s[i])
  {
    if |s| == 0 then true
    else if !IsWhitespace(s[0]) then false
    else
      assert forall i :: 1 <= i < |s| ==> s[i] == s[1..][i - 1];
      AllWhitespace(s[1..])
  }

  /** StringUtils.isNotBlank: not null, not empty and not whitespace only. */
  predicate IsNotBlank(s: Nullable<string>)
  {
    s.NonNull? && !AllWhitespace(s.value)
  }

  /** A string is not blank exactly when it is non-null and has a non-whitespace character. */
  lemma IsNotBlankMeans(s: Nullable<string>)
    ensures IsNotBlank(s) <==> s.NonNull? && exists i :: 0 <= i < |s.value| && !IsWhitespace(s.value[i])
  {
  }
}
