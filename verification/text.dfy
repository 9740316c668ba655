/** The strings that reach the store: API keys, TXT values, subdomains. */
module Text {
  const UPPER := "ABCDEFGHIJKLMNOPQRSTUVWXYZ"
  const LOWER := "abcdefghijklmnopqrstuvwxyz"
  const REST := "1234567890-_"
  const ALPHABET := UPPER + LOWER + REST

  /** The URL-safe base64 alphabet without padding (section 5 of RFC 4648). */
  predicate IsBase64Url(c: char) {
    'A' <= c <= 'Z' || 'a' <= c <= 'z' || '0' <= c <= '9' || c == '-' || c == '_'
  }

  predicate AllBase64Url(s: string) {
    forall i :: 0 <= i < |s| ==> IsBase64Url(s[i])
  }

  /** Everything outside the alphabet removed. */
  function SanitizeString(s: string): string {
    if s == "" then ""
    else (if IsBase64Url(s[0]) then [s[0]] else "") + SanitizeString(s[1..])
  }

  predicate ValidKey(k: string) {
    |k| == 40 && |SanitizeString(k)| == 40
  }

  predicate ValidTXT(s: string) {
    |s| == 43 && |SanitizeString(s)| == 43
  }

  predicate IsAlphanumeric(c: char) {
    'A' <= c <= 'Z' || 'a' <= c <= 'z' || '0' <= c <= '9'
  }

  /** One DNS label: letters, digits and inner hyphens. */
  predicate ValidSubdomain(s: string) {
    && 1 <= |s| <= 63
    && IsAlphanumeric(s[0]) && IsAlphanumeric(s[|s| - 1])
    && forall i :: 0 <= i < |s| ==> IsAlphanumeric(s[i]) || s[i] == '-'
  }

  /** Sanitizing shortens a string exactly when it contains a foreign character. */
  lemma {:induction false} SanitizeLength(s: string)
    ensures |SanitizeString(s)| <= |s|
    ensures |SanitizeString(s)| == |s| <==> AllBase64Url(s)
    ensures AllBase64Url(s) ==> SanitizeString(s) == s
    ensures AllBase64Url(SanitizeString(s))
  {
    if s != "" {
      SanitizeLength(s[1..]);
      assert s == [s[0]] + s[1..];
    }
  }

  /** Sanitizing works letter by letter: it keeps letters, digits, hyphens and underscores and
      drops everything else. */
  lemma {:induction false} SanitizeConcat(a: string, b: string)
    ensures SanitizeString(a + b) == SanitizeString(a) + SanitizeString(b)
    ensures |a| == 1 ==> SanitizeString(a) == if IsBase64Url(a[0]) then a else ""
  {
    if a == "" {
      assert a + b == b;
    } else {
      assert (a + b)[1..] == a[1..] + b;
      SanitizeConcat(a[1..], b);
    }
  }

  /** The place of a letter in the alphabet: capitals, small letters, digits from 1 to 0, and the
      two signs. */
  function Place(c: char): nat {
    if 'A' <= c <= 'Z' then c as int - 'A' as int
    else if 'a' <= c <= 'z' then 26 + (c as int - 'a' as int)
    else if c == '0' then 61
    else if '1' <= c <= '9' then 52 + (c as int - '1' as int)
    else if c == '-' then 62 else 63
  }

  lemma LetterAtPlace(c: char)
    requires IsBase64Url(c)
    ensures Place(c) < |ALPHABET| && ALPHABET[Place(c)] == c
  {
    if 'A' <= c <= 'Z' {
      UpperAt(Place(c));
      assert ALPHABET[Place(c)] == UPPER[Place(c)];
    } else if 'a' <= c <= 'z' {
      LowerAt(Place(c) - 26);
      assert ALPHABET[Place(c)] == LOWER[Place(c) - 26];
    } else {
      assert ALPHABET[Place(c)] == REST[Place(c) - 52];
    }
  }

  /** The alphabet holds exactly the characters of the URL-safe base64 encoding. */
  lemma InAlphabet(c: char)
    ensures c in ALPHABET <==> IsBase64Url(c)
    ensures |ALPHABET| == 64 && ALPHABET[62..] == "-_"
  {
    if IsBase64Url(c) { LetterAtPlace(c); }
    if i :| 0 <= i < |ALPHABET| && ALPHABET[i] == c {
      AlphabetIsBase64Url(i);
    }
  }

  const LETTERS := UPPER + LOWER + "0123456789"

  lemma LetterAt(i: nat)
    requires i < 62
    ensures |LETTERS| == 62 && IsAlphanumeric(LETTERS[i])
  {
    if i < 26 {
      assert LETTERS[i] == UPPER[i];
    } else if i < 52 {
      assert LETTERS[i] == LOWER[i - 26];
    } else {
      assert LETTERS[i] == "0123456789"[i - 52];
    }
  }

  lemma InLetters(c: char)
    ensures c in LETTERS <==> IsAlphanumeric(c)
  {
    if 'A' <= c <= 'Z' {
      assert LETTERS[c as int - 'A' as int] == c;
    } else if 'a' <= c <= 'z' {
      assert LETTERS[26 + (c as int - 'a' as int)] == c;
    } else if '0' <= c <= '9' {
      assert LETTERS[52 + (c as int - '0' as int)] == c;
    }
    if i :| 0 <= i < |LETTERS| && LETTERS[i] == c {
      LetterAt(i);
    }
  }

  /** A letter or digit, at most 61 letters, digits and hyphens, and a letter or digit. */
  predicate LabelParts(first: char, middle: string, last: char) {
    && IsAlphanumeric(first) && IsAlphanumeric(last)
    && |middle| <= 61 && forall i :: 0 <= i < |middle| ==> IsAlphanumeric(middle[i]) || middle[i] == '-'
  }

  /** A subdomain of one character is a letter or digit; a longer one consists of these parts. */
  lemma ValidSubdomainExactly(s: string)
    ensures s == "" ==> !ValidSubdomain(s)
    ensures |s| == 1 ==> (ValidSubdomain(s) <==> IsAlphanumeric(s[0]))
    ensures |s| >= 2 ==> (ValidSubdomain(s) <==> LabelParts(s[0], s[1..|s| - 1], s[|s| - 1]))
  {
    if |s| >= 2 {
      var middle := s[1..|s| - 1];
      assert forall i :: 0 <= i < |middle| ==> middle[i] == s[i + 1];
      assert forall i :: 0 < i < |s| - 1 ==> s[i] == middle[i - 1];
    }
  }

  lemma ValidTXTExactly(s: string)
    ensures ValidTXT(s) <==> |s| == 43 && AllBase64Url(s)
  {
    SanitizeLength(s);
  }

  lemma ValidKeyExactly(k: string)
    ensures ValidKey(k) <==> |k| == 40 && AllBase64Url(k)
  {
    SanitizeLength(k);
  }

  lemma AlphabetIsBase64Url(i: nat)
    requires i < 64
    ensures |ALPHABET| == 64 && IsBase64Url(ALPHABET[i])
  {
    if i < 26 {
      assert ALPHABET[i] == UPPER[i] && 'A' <= UPPER[i] <= 'Z';
    } else if i < 52 {
      assert ALPHABET[i] == LOWER[i - 26] && 'a' <= LOWER[i - 26] <= 'z';
    } else {
      assert ALPHABET[i] == REST[i - 52];
    }
  }

  function Letter(draw: nat): (c: char)
    requires draw < 64
    ensures IsBase64Url(c)
  {
    AlphabetIsBase64Url(draw);
    ALPHABET[draw]
  }

  /** The password spelled by random indexes into the alphabet. */
  function FromDraws(draws: seq<nat>): (password: string)
    requires forall i :: 0 <= i < |draws| ==> draws[i] < 64
    ensures |password| == |draws| && AllBase64Url(password)
  {
    seq(|draws|, i requires 0 <= i < |draws| => Letter(draws[i]))
  }

  lemma UpperAt(i: nat)
    requires i < 26
    ensures UPPER[i] as int == 'A' as int + i
  {
  }

  lemma LowerAt(i: nat)
    requires i < 26
    ensures LOWER[i] as int == 'a' as int + i
  {
  }

  lemma PlaceOfLetter(i: nat)
    requires i < 64
    ensures Place(Letter(i)) == i
  {
    AlphabetIsBase64Url(i);
    if i < 26 {
      UpperAt(i);
      assert Letter(i) == UPPER[i];
    } else if i < 52 {
      LowerAt(i - 26);
      assert Letter(i) == LOWER[i - 26];
    } else {
      assert Letter(i) == REST[i - 52];
    }
  }

  /** Each draw spells its own letter of the alphabet, so no two sequences of draws spell the same
      password. */
  lemma DrawsSpellDistinctly(a: seq<nat>, b: seq<nat>)
    requires forall i :: 0 <= i < |a| ==> a[i] < 64
    requires forall i :: 0 <= i < |b| ==> b[i] < 64
    ensures forall i :: 0 <= i < |a| ==> Place(FromDraws(a)[i]) == a[i]
    ensures FromDraws(a) == FromDraws(b) ==> a == b
  {
    SpellsPlaces(a);
    SpellsPlaces(b);
    if FromDraws(a) == FromDraws(b) {
      assert forall i :: 0 <= i < |a| ==> a[i] == b[i];
    }
  }

  lemma SpellsPlaces(draws: seq<nat>)
    requires forall i :: 0 <= i < |draws| ==> draws[i] < 64
    ensures forall i :: 0 <= i < |draws| ==> Place(FromDraws(draws)[i]) == draws[i]
  {
    forall i | 0 <= i < |draws| ensures Place(FromDraws(draws)[i]) == draws[i] {
      PlaceOfLetter(draws[i]);
    }
  }

  predicate AreDraws(draws: seq<nat>, length: nat) {
    |draws| == length && forall i :: 0 <= i < length ==> draws[i] < 64
  }

  lemma DrawnIsValid(draws: seq<nat>)
    requires AreDraws(draws, |draws|)
    ensures |draws| == 40 ==> ValidKey(FromDraws(draws))
    ensures |draws| == 43 ==> ValidTXT(FromDraws(draws))
  {
    SanitizeLength(FromDraws(draws));
  }

  method GeneratePassword(length: nat, draws: seq<nat>) returns (password: string)
    requires AreDraws(draws, length)
    ensures password == FromDraws(draws)
  {
    var ret := new char[length];
    for i := 0 to length
      invariant forall k :: 0 <= k < i ==> ret[k] == FromDraws(draws)[k]
    {
      ret[i] := Letter(draws[i]);
    }
    password := ret[..];
  }
}
