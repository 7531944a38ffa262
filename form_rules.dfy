/** The checks the account forms share: the e-mail pattern `\S+@\S+\.\S+`, tested
    anywhere in the text, and the minimum password length. */
module FormRules {
  import opened JsText

  const MinPasswordLength: nat := 8

  const EmailMessage: string := "Insira um endere\U{00E7}o de email v\U{00E1}lido."
  const PasswordMessage: string := "A palavra passe deve conter pelo menos 8 caracteres."

  /** Some part of the text matches `\S+@\S+\.\S+`: an '@' with a non-space character
      before it, then non-space characters up to a '.', and a non-space character after
      it. The pattern has no anchors, so the rest of the text does not matter. */
  predicate EmailPattern(s: string) {
    exists p, q | 0 <= p < |s| && 0 <= q < |s| :: MatchAt(s, p, q)
  }

  /** The match with its '@' at `p` and its '.' at `q`. */
  predicate MatchAt(s: string, p: int, q: int) {
    0 < p && p + 1 < q && q + 1 < |s| && s[p] == '@' && s[q] == '.'
    && !IsSpace(s[p - 1]) && NoSpace(s[p + 1..q]) && !IsSpace(s[q + 1])
  }

  /** `!email || !/\S+@\S+\.\S+/.test(email)` fails. */
  predicate EmailValid(email: string) {
    email != [] && EmailPattern(email)
  }

  /** `!password || password.length < 8` fails; `length` counts UTF-16 code units. */
  predicate PasswordValid(password: string) {
    password != [] && Length(password) >= MinPasswordLength
  }

  /** The emptiness checks add nothing: a match needs five characters, an '@' and a '.',
      and a password of eight characters is not empty. */
  lemma EmptyChecksRedundant(email: string, password: string)
    ensures EmailValid(email) <==> EmailPattern(email)
    ensures EmailPattern(email) ==> |email| >= 5 && '@' in email && '.' in email
    ensures PasswordValid(password) <==> Length(password) >= MinPasswordLength
  {
    if EmailPattern(email) {
      var p: int, q: int :| MatchAt(email, p, q);
      assert MatchAt(email, p, q);
      assert email[p] in email && email[q] in email;
    }
  }

  /** Whatever surrounds a matching text, the whole still matches. */
  lemma EmailUnanchored(a: string, s: string, b: string)
    requires EmailPattern(s)
    ensures EmailPattern(a + s + b)
  {
    var p: int, q: int :| MatchAt(s, p, q);
      assert MatchAt(s, p, q);
    var t := a + s + b;
    var p', q' := |a| + p, |a| + q;
    assert t[p' + 1..q'] == s[p + 1..q];
    assert t[p'] == s[p] && t[q'] == s[q] && t[p' - 1] == s[p - 1] && t[q' + 1] == s[q + 1];
    assert MatchAt(t, p', q');
  }

  /** The shortest address matches. */
  lemma ShortestEmail(s: string)
    requires s == "a@b.c"
    ensures EmailPattern(s)
  {
    assert s[1] == '@' && s[3] == '.' && s[2..3] == "b";
    assert MatchAt(s, 1, 3);
  }

  /** White space between the '@' and the '.' is refused. */
  lemma SpaceInDomain(s: string)
    requires s == "a@ b.c"
    ensures !EmailPattern(s)
  {
    forall p: int, q: int ensures !MatchAt(s, p, q) {
      if 0 < p && p + 1 < q && q + 1 < |s| {
        assert p == 1 || p == 2;
        assert s[2] == ' ';
        if p == 1 {
          assert s[p + 1..q][0] == ' ';
        }
      }
    }
  }

  /** Text without an '@' never matches. */
  lemma NoAtNoEmail(s: string)
    requires '@' !in s
    ensures !EmailValid(s)
  {
    forall p: int, q: int ensures !MatchAt(s, p, q) {
      if 0 <= p < |s| {
        assert s[p] in s;
      }
    }
  }

  /** Four emoji make a password of length 8: each is a surrogate pair. */
  lemma EmojiPassword(password: string)
    requires password == "\U{1F600}\U{1F600}\U{1F600}\U{1F600}"
    ensures PasswordValid(password) && |password| == 4
  {
    LengthOfAstral(password);
  }

  /** Seven plain characters are one code unit short. */
  lemma SevenLettersRefused(password: string)
    requires password == "abcdefg"
    ensures !PasswordValid(password)
  {
    LengthOfPlaneZero(password);
  }
}
