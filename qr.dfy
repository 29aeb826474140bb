/**
 * Confirmation codes (`generateConfirmationCode` in lib/qr.ts): `C25-` and two
 * groups of four characters separated by `-`, each drawn from a 32-character
 * alphabet without the look-alikes `I`, `O`, `0` and `1`.  The eight random
 * draws `Math.floor(Math.random() * 32)` are an input.
 */
module Qr {
  import opened JsText

  const Alphabet: string := "ABCDEFGHJKLMNPQRSTUVWXYZ23456789"
  const Prefix: string := "C25-"

  /** One random draw: an index into `Alphabet`. */
  type CodeIndex = i: nat | i < 32

  /** The characters for one group of draws. */
  function Group(draws: seq<CodeIndex>): (g: string)
    ensures |g| == |draws|
    ensures forall k :: 0 <= k < |draws| ==> g[k] == Alphabet[draws[k]]
  {
    seq(|draws|, k requires 0 <= k < |draws| => Alphabet[draws[k]])
  }

  function Generate(draws: seq<CodeIndex>): (code: string)
    requires |draws| == 8
    ensures WellFormed(code)
  {
    AlphabetIsUpper();
    Prefix + Group(draws[..4]) + "-" + Group(draws[4..])
  }

  /** A position of a code that holds a random character rather than the prefix or the separator. */
  predicate RandomPosition(k: int) {
    4 <= k < 8 || 9 <= k < 13
  }

  /** The shape every generated code has. */
  predicate WellFormed(code: string) {
    && |code| == 13
    && code[..4] == Prefix
    && code[8] == '-'
    && (forall k | 0 <= k < 13 :: RandomPosition(k) ==> code[k] in Alphabet)
    && HasNoLower(code)
  }

  /** Position in `Alphabet` of an alphabet character. */
  function Rank(c: char): int {
    if 'A' <= c <= 'H' then c as int - 'A' as int
    else if 'J' <= c <= 'N' then c as int - 'A' as int - 1
    else if 'P' <= c <= 'Z' then c as int - 'A' as int - 2
    else c as int - '2' as int + 24
  }

  lemma RankInvertsAlphabet()
    ensures |Alphabet| == 32
    ensures forall i :: 0 <= i < 32 ==> Rank(Alphabet[i]) == i
  {
  }

  lemma AlphabetIsUpper()
    ensures forall i :: 0 <= i < |Alphabet| ==> IsUpperAscii(Alphabet[i]) || IsDigit(Alphabet[i])
  {
  }

  /** The alphabet has 32 distinct characters and none of `I`, `O`, `0`, `1`. */
  lemma AlphabetFacts()
    ensures |Alphabet| == 32
    ensures forall i, j :: 0 <= i < j < |Alphabet| ==> Alphabet[i] != Alphabet[j]
    ensures 'I' !in Alphabet && 'O' !in Alphabet && '0' !in Alphabet && '1' !in Alphabet
  {
    RankInvertsAlphabet();
    AlphabetIsUpper();
    forall c | c in Alphabet ensures c != 'I' && c != 'O' && c != '0' && c != '1' {
      var i :| 0 <= i < 32 && Alphabet[i] == c;
      assert Rank(c) == i;
    }
  }

  /** The draws a well-formed code was generated from. */
  function Draws(code: string): (d: seq<int>)
    requires |code| == 13
    ensures |d| == 8
  {
    seq(8, k requires 0 <= k < 8 => Rank(code[if k < 4 then 4 + k else 5 + k]))
  }

  /** The draws can be read back from the code, so distinct draws give distinct codes. */
  lemma DrawsOfGenerate(draws: seq<CodeIndex>)
    requires |draws| == 8
    ensures Draws(Generate(draws)) == draws
  {
    RankInvertsAlphabet();
    var code := Generate(draws);
    forall k | 0 <= k < 8 ensures Draws(code)[k] == draws[k] {
      GenerateAt(draws, k);
    }
  }

  /** Draw `k` sits at position `4 + k` of the first group, or `5 + k` past the separator. */
  lemma GenerateAt(draws: seq<CodeIndex>, k: nat)
    requires |draws| == 8 && k < 8
    ensures Generate(draws)[if k < 4 then 4 + k else 5 + k] == Alphabet[draws[k]]
  {
    var g1 := Group(draws[..4]);
    var g2 := Group(draws[4..]);
    assert Generate(draws) == Prefix + g1 + "-" + g2;
    if k < 4 {
      assert (Prefix + g1 + "-" + g2)[4 + k] == g1[k];
    } else {
      assert (Prefix + g1 + "-" + g2)[5 + k] == g2[k - 4];
    }
  }

  lemma GenerateInjective(d1: seq<CodeIndex>, d2: seq<CodeIndex>)
    requires |d1| == 8 && |d2| == 8 && d1 != d2
    ensures Generate(d1) != Generate(d2)
  {
    DrawsOfGenerate(d1);
    DrawsOfGenerate(d2);
  }

  /** Uppercasing a generated code leaves it unchanged. */
  lemma GenerateIsUppercase(draws: seq<CodeIndex>)
    requires |draws| == 8
    ensures Upper(Generate(draws)) == Generate(draws)
  {
    UpperFixesHasNoLower(Generate(draws));
  }
}
