/** The topic alphabet of msg.h and the index lookup of trie.c. */
module Alphabet {

  const TOPIC_ALPHABET: string :=
    "+*/-_." +
    "abcdefghijklmnopqrstuvwxyz" +
    "ABCDEFGHIJKLMNOPQRTSUVWXYZ" +
    "0123456789" +
    "~`!@#$%^&*()+={}[];:'<>,?|\"\\"

  /** What a subscriber's trie stores with every topic: one byte of the value given. */
  const TOPIC_VALUE: char := 'T'

  /** Strings written with the characters of an alphabet. */
  predicate Over(s: string, alphabet: string) {
    forall c | c in s :: c in alphabet
  }

  predicate WildcardAlphabet(alphabet: string) {
    '/' in alphabet && '+' in alphabet && '*' in alphabet
  }

  /** The first position of a letter, which is therefore the only one that answers for it although the
      alphabet repeats some characters. */
  ghost function Position(alphabet: string, letter: char): (index: nat)
    requires letter in alphabet
    ensures index < |alphabet| && alphabet[index] == letter && letter !in alphabet[..index]
  {
    if alphabet[0] == letter then 0 else 1 + Position(alphabet[1..], letter)
  }

  lemma {:induction false} PositionUnique(alphabet: string, letter: char, i: nat)
    requires i < |alphabet| && alphabet[i] == letter && letter !in alphabet[..i]
    ensures Position(alphabet, letter) == i
  {
    if i > 0 {
      assert alphabet[0] == alphabet[..i][0];
      assert alphabet[1..][..i - 1] == alphabet[..i][1..];
      PositionUnique(alphabet[1..], letter, i - 1);
    }
  }

  /** get_index_from_alphabet: the first position of the letter, or -1. */
  method GetIndexFromAlphabet(alphabet: string, letter: char) returns (index: int)
    ensures index == if letter in alphabet then Position(alphabet, letter) else -1
  {
    for i := 0 to |alphabet|
      invariant letter !in alphabet[..i]
    {
      if alphabet[i] == letter {
        PositionUnique(alphabet, letter, i);
        return i;
      }
    }
    return -1;
  }

  lemma TopicAlphabetHasWildcards()
    ensures WildcardAlphabet(TOPIC_ALPHABET)
  {
    assert TOPIC_ALPHABET[0] == '+' && TOPIC_ALPHABET[1] == '*' && TOPIC_ALPHABET[2] == '/';
  }

  // ---------- which characters these are ----------

  lemma Everything(c: char)
    requires '!' <= c <= '~'
    ensures c in TOPIC_ALPHABET
  {
  }

  lemma FirstThird(i: nat)
    requires 0 <= i < 32
    ensures i < |TOPIC_ALPHABET| && '!' <= TOPIC_ALPHABET[i] <= '~'
  {
  }

  lemma MiddleThird(i: nat)
    requires 32 <= i < 64
    ensures i < |TOPIC_ALPHABET| && '!' <= TOPIC_ALPHABET[i] <= '~'
  {
  }

  lemma LastThird(i: nat)
    requires 64 <= i < 96
    ensures i < |TOPIC_ALPHABET| && '!' <= TOPIC_ALPHABET[i] <= '~'
  {
  }

  lemma NothingElse(i: nat)
    requires i < |TOPIC_ALPHABET|
    ensures '!' <= TOPIC_ALPHABET[i] <= '~'
  {
    assert |TOPIC_ALPHABET| == 96;
    if i < 32 {
      FirstThird(i);
    } else if i < 64 {
      MiddleThird(i);
    } else {
      LastThird(i);
    }
  }

  /** The alphabet is that of the printable characters other than the space. */
  lemma Printable(c: char)
    ensures c in TOPIC_ALPHABET <==> '!' <= c <= '~'
  {
    hide TOPIC_ALPHABET;
    if c in TOPIC_ALPHABET {
      var i :| 0 <= i < |TOPIC_ALPHABET| && TOPIC_ALPHABET[i] == c;
      NothingElse(i);
    } else if '!' <= c <= '~' {
      Everything(c);
    }
  }

  /** The alphabet repeats `+` and `*`, so positions and characters do not correspond one to one. */
  lemma TopicAlphabetRepeats()
    ensures TOPIC_ALPHABET[0] == TOPIC_ALPHABET[80] == '+' && TOPIC_ALPHABET[1] == TOPIC_ALPHABET[77] == '*'
  {
  }
}
