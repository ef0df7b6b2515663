/** The captcha secret: how `generateCaptcha` builds it from random picks, and
    how `validateCaptcha` compares the visitor's answer with it. The canvas
    drawing around the construction is not modelled. */
module Captcha {
  import opened Text

  /** The characters a secret is drawn from, in the order of the source's
      literal: capitals, small letters, digits. */
  const Alphabet: string := Capitals + Smalls + Digits

  const Capitals: string := "ABCDEFGHJKLMNPQRSTUVWXYZ"
  const Smalls: string := "abcdefghijkmnpqrstuvwxyz"
  const Digits: string := "23456789"

  /** How many characters a secret has. */
  const SecretLength: nat := 5

  /** Picks that `Math.floor(Math.random() * chars.length)` can produce. */
  predicate ValidDraws(draws: seq<nat>) {
    forall i :: 0 <= i < |draws| ==> draws[i] < |Alphabet|
  }

  /** The string the construction loop appends together: one alphabet
      character per draw, the one the draw selects, in draw order. */
  function SecretFrom(draws: seq<nat>): (s: string)
    requires ValidDraws(draws)
    ensures |s| == |draws|
    ensures forall i :: 0 <= i < |s| ==> s[i] == Alphabet[draws[i]]
  {
    if draws == [] then []
    else
      var init := draws[..|draws| - 1];
      var s := SecretFrom(init) + [Alphabet[draws[|draws| - 1]]];
      assert forall i :: 0 <= i < |init| ==> init[i] == draws[i];
      s
  }

  /** `validateCaptcha`: the trimmed answer equals the secret, ignoring case. */
  predicate Accepts(answer: string, secret: string): (ok: bool)
    ensures ok ==> |Trim(answer)| == |secret|
    ensures Trim(answer) == secret ==> ok
  {
    Lower(Trim(answer)) == Lower(secret)
  }

  /** The letters and digits other than the easily confused I, O, l, o, 0 and 1. */
  predicate Unambiguous(c: char) {
    ('A' <= c <= 'Z' && c != 'I' && c != 'O')
    || ('a' <= c <= 'z' && c != 'l' && c != 'o')
    || ('2' <= c <= '9')
  }

  /** The alphabet has 56 characters, all of them unambiguous letters and digits. */
  lemma AlphabetShape()
    ensures |Alphabet| == 56
    ensures forall i :: 0 <= i < |Alphabet| ==> Unambiguous(Alphabet[i])
  {
    PartUnambiguous(Capitals);
    PartUnambiguous(Smalls);
    PartUnambiguous(Digits);
    forall i | 0 <= i < |Alphabet| ensures Unambiguous(Alphabet[i]) {
      if i < |Capitals| {
        assert Alphabet[i] == Capitals[i];
      } else if i < |Capitals| + |Smalls| {
        assert Alphabet[i] == Smalls[i - |Capitals|];
      } else {
        assert Alphabet[i] == Digits[i - |Capitals| - |Smalls|];
      }
    }
  }

  lemma PartUnambiguous(part: string)
    requires part == Capitals || part == Smalls || part == Digits
    ensures forall i :: 0 <= i < |part| ==> Unambiguous(part[i])
  {
  }

  /** No character of the alphabet is white space. */
  lemma AlphabetHasNoSpace()
    ensures NoSpace(Alphabet)
  {
    AlphabetShape();
    forall i | 0 <= i < |Alphabet| ensures !IsSpace(Alphabet[i]) {
      assert Unambiguous(Alphabet[i]);
    }
  }

  /** A generated secret has exactly five characters, each of them an
      unambiguous letter or digit of the alphabet. */
  lemma GeneratedSecretShape(draws: seq<nat>)
    requires ValidDraws(draws) && |draws| == SecretLength
    ensures |SecretFrom(draws)| == SecretLength
    ensures forall i :: 0 <= i < SecretLength ==> SecretFrom(draws)[i] in Alphabet
    ensures forall i :: 0 <= i < SecretLength ==> Unambiguous(SecretFrom(draws)[i])
  {
    AlphabetShape();
  }

  /** A secret drawn from the alphabet has no white space, so `trim` keeps it whole. */
  lemma SecretHasNoSpace(draws: seq<nat>)
    requires ValidDraws(draws)
    ensures NoSpace(SecretFrom(draws))
  {
    var s := SecretFrom(draws);
    AlphabetHasNoSpace();
    forall i | 0 <= i < |s| ensures !IsSpace(s[i]) {
      assert s[i] == Alphabet[draws[i]];
    }
  }

  /** The answer is compared after trimming and ignoring case: white space
      around an answer, or a different letter case, never changes the verdict. */
  lemma AcceptsPaddedAnyCase(front: string, answer: string, back: string, secret: string)
    requires AllSpace(front) && AllSpace(back) && Trimmed(answer)
    ensures Accepts(front + answer + back, secret) <==> Lower(answer) == Lower(secret)
    ensures Accepts(front + Lower(answer) + back, secret) <==> Accepts(answer, secret)
  {
    TrimPadded(front, answer, back);
    assert [] + answer + [] == answer;
    TrimPadded([], answer, []);
    var low := Lower(answer);
    LowerKeepsSpace(answer);
    TrimPadded(front, low, back);
    LowerIdempotent(answer);
  }

  /** Typing a freshly generated secret back, in any letter case, passes the check. */
  lemma GeneratedSecretAccepted(draws: seq<nat>)
    requires ValidDraws(draws)
    ensures Accepts(SecretFrom(draws), SecretFrom(draws))
    ensures Accepts(Lower(SecretFrom(draws)), SecretFrom(draws))
  {
    var s := SecretFrom(draws);
    SecretHasNoSpace(draws);
    TrimNoSpace(s);
    LowerKeepsSpace(s);
    TrimNoSpace(Lower(s));
    LowerIdempotent(s);
  }
}
