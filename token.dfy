/**
  `is_valid_token` of bluetooth.py and BluetoothCellularWiFi.py:
  `re.fullmatch(r"[\w\-_=]*", token)`. The regular expression is one
  character class under a star, matched against the whole token. Which
  characters `\w` stands for is Unicode data, so it is a parameter here.
 */
module Token {

  /** The character class `[\w\-_=]`. */
  predicate InTokenClass(isWord: char -> bool, c: char)
  {
    isWord(c) || c == '-' || c == '_' || c == '='
  }

  /** A full match of `[cls]*`: the star takes one class character at a
      time until the token is used up. */
  predicate FullMatchStar(cls: char -> bool, s: string)
    decreases |s|
  {
    |s| == 0 || (cls(s[0]) && FullMatchStar(cls, s[1..]))
  }

  predicate IsValidToken(isWord: char -> bool, token: string)
  {
    FullMatchStar(c => InTokenClass(isWord, c), token)
  }

  /** The star matches exactly the strings made only of class characters. */
  lemma {:induction false} FullMatchStarAll(cls: char -> bool, s: string)
    ensures FullMatchStar(cls, s) <==> forall i | 0 <= i < |s| :: cls(s[i])
    decreases |s|
  {
    if |s| > 0 {
      FullMatchStarAll(cls, s[1..]);
      if forall i | 0 <= i < |s| :: cls(s[i]) {
        forall i | 0 <= i < |s[1..]| ensures cls(s[1..][i]) {
          assert s[1..][i] == s[i + 1];
        }
      }
      if cls(s[0]) && forall i | 0 <= i < |s[1..]| :: cls(s[1..][i]) {
        forall i | 0 <= i < |s| ensures cls(s[i]) {
          if i > 0 { assert s[i] == s[1..][i - 1]; }
        }
      }
    }
  }

  /** A token is valid exactly when each of its characters is a word
      character, '-', '_' or '='. In particular the empty token is valid. */
  lemma ValidTokenChars(isWord: char -> bool, token: string)
    ensures IsValidToken(isWord, token) <==> forall i | 0 <= i < |token| :: InTokenClass(isWord, token[i])
  {
    FullMatchStarAll(c => InTokenClass(isWord, c), token);
  }

  /** Gluing two tokens gives a valid token exactly when both are valid. */
  lemma ValidTokenConcat(isWord: char -> bool, a: string, b: string)
    ensures IsValidToken(isWord, a + b) <==> IsValidToken(isWord, a) && IsValidToken(isWord, b)
  {
    ValidTokenChars(isWord, a);
    ValidTokenChars(isWord, b);
    ValidTokenChars(isWord, a + b);
    var ab := a + b;
    if forall i | 0 <= i < |ab| :: InTokenClass(isWord, ab[i]) {
      forall i | 0 <= i < |a| ensures InTokenClass(isWord, a[i]) {
        assert a[i] == ab[i];
      }
      forall i | 0 <= i < |b| ensures InTokenClass(isWord, b[i]) {
        assert b[i] == ab[|a| + i];
      }
    }
    if (forall i | 0 <= i < |a| :: InTokenClass(isWord, a[i])) && (forall i | 0 <= i < |b| :: InTokenClass(isWord, b[i])) {
      forall i | 0 <= i < |ab| ensures InTokenClass(isWord, ab[i]) {
        if i < |a| { assert ab[i] == a[i]; } else { assert ab[i] == b[i - |a|]; }
      }
    }
  }

  /** One character outside the class anywhere (a space, '/', '+', '.'
      when these are not word characters) makes the token invalid. */
  lemma InvalidWith(isWord: char -> bool, token: string, i: nat)
    requires i < |token| && !InTokenClass(isWord, token[i])
    ensures !IsValidToken(isWord, token)
  {
    ValidTokenChars(isWord, token);
  }
}
