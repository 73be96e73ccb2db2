/**
 * Text mode's universal newlines on input: after decoding, every "\r\n" and
 * every lone "\r" reads as "\n".
 */
module Newlines {

  function Translate(s: string): (r: string)
    ensures |r| <= |s|
    decreases |s|
  {
    if s == [] then []
    else if s[0] == '\r' then
      if |s| > 1 && s[1] == '\n' then "\n" + Translate(s[2..]) else "\n" + Translate(s[1..])
    else [s[0]] + Translate(s[1..])
  }

  /** No carriage return survives the translation. */
  lemma {:induction false} NoCarriageReturn(s: string)
    ensures '\r' !in Translate(s)
    decreases |s|
  {
    if s != [] {
      if s[0] == '\r' && |s| > 1 && s[1] == '\n' {
        NoCarriageReturn(s[2..]);
      } else {
        NoCarriageReturn(s[1..]);
      }
    }
  }

  /** Text is returned unchanged exactly when it holds no carriage return. */
  lemma {:induction false} TranslateFixed(s: string)
    ensures Translate(s) == s <==> '\r' !in s
    decreases |s|
  {
    NoCarriageReturn(s);
    if s != [] && s[0] != '\r' {
      TranslateFixed(s[1..]);
      assert s == [s[0]] + s[1..];
    }
  }

  /** Reading translated text in text mode again changes nothing. */
  lemma TranslateIdempotent(s: string)
    ensures Translate(Translate(s)) == Translate(s)
  {
    NoCarriageReturn(s);
    TranslateFixed(Translate(s));
  }
}
