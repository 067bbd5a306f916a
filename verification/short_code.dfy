/**
 * Short codes: the six-character identifiers the store hands out, and the
 * generator `_generate_short_code` that draws them from the 62-symbol
 * alphanumeric alphabet (app/models.py).
 *
 * Randomness is not modelled: a `Draw` is the list of alphabet positions that
 * `random.choices` picked, and `Generate` is the deterministic part of the
 * generator, turning those positions into a code.
 */
module ShortCode {

  /** `string.ascii_letters + string.digits`, in Python's order. */
  const Lowercase: string := "abcdefghijklmnopqrstuvwxyz"
  const Uppercase: string := "ABCDEFGHIJKLMNOPQRSTUVWXYZ"
  const Digits: string := "0123456789"
  const Alphabet: string := Lowercase + Uppercase + Digits

  /** Symbols per code (`k=6`). */
  const CodeLength: nat := 6

  /** The character class `[A-Za-z0-9]`. */
  predicate IsAlnum(ch: char) {
    ('a' <= ch <= 'z') || ('A' <= ch <= 'Z') || ('0' <= ch <= '9')
  }

  /** The format of every key of the store: `^[A-Za-z0-9]{6}$`. */
  predicate ValidCode(code: string) {
    |code| == CodeLength && forall i :: 0 <= i < |code| ==> IsAlnum(code[i])
  }

  /** One call of the generator: the positions in `Alphabet` that were picked. */
  type Draw = seq<int>

  /** What `random.choices(Alphabet, k=6)` can pick: six positions in range. */
  predicate ValidDraw(d: Draw) {
    |d| == CodeLength && forall i :: 0 <= i < |d| ==> 0 <= d[i] < |Alphabet|
  }

  lemma AlphabetSize()
    ensures |Alphabet| == 62
  {
  }

  /** Each block of the alphabet is a contiguous run of character codes. */
  lemma AlphabetRuns()
    ensures forall k :: 0 <= k < 26 ==> Alphabet[k] as int == 'a' as int + k
    ensures forall k :: 26 <= k < 52 ==> Alphabet[k] as int == 'A' as int + (k - 26)
    ensures forall k :: 52 <= k < 62 ==> Alphabet[k] as int == '0' as int + (k - 52)
  {
    assert forall k :: 0 <= k < 26 ==> Lowercase[k] as int == 'a' as int + k;
    assert forall k :: 0 <= k < 26 ==> Uppercase[k] as int == 'A' as int + k;
    assert forall k :: 0 <= k < 10 ==> Digits[k] as int == '0' as int + k;
  }

  /** `PositionOf` inverts indexing: no symbol occurs twice in the alphabet. */
  lemma PositionOfAlphabet()
    ensures forall k :: 0 <= k < |Alphabet| ==> IsAlnum(Alphabet[k]) && PositionOf(Alphabet[k]) == k
  {
    AlphabetRuns();
  }

  /** The position of an alphanumeric character in `Alphabet`. */
  function PositionOf(ch: char): (k: nat)
    requires IsAlnum(ch)
    ensures k < |Alphabet| && Alphabet[k] == ch
  {
    if 'a' <= ch <= 'z' then ch as int - 'a' as int
    else if 'A' <= ch <= 'Z' then 26 + (ch as int - 'A' as int)
    else 52 + (ch as int - '0' as int)
  }

  /** `_generate_short_code`: the code spelled by the picked positions. */
  function Generate(d: Draw): (code: string)
    requires ValidDraw(d)
    ensures ValidCode(code)
    ensures forall i :: 0 <= i < |code| ==> PositionOf(code[i]) == d[i]
  {
    PositionOfAlphabet();
    seq(|d|, i requires 0 <= i < |d| => Alphabet[d[i]])
  }

  /** The draw that makes the generator produce `code`. */
  function DrawOf(code: string): (d: Draw)
    requires ValidCode(code)
    ensures ValidDraw(d)
  {
    seq(|code|, i requires 0 <= i < |code| => PositionOf(code[i]))
  }

  /** Every code of the right format can be generated: the generator's range is exactly `ValidCode`. */
  lemma GenerateDrawOf(code: string)
    requires ValidCode(code)
    ensures Generate(DrawOf(code)) == code
  {
  }

  /** Different draws give different codes: `Generate` is injective. */
  lemma DrawOfGenerate(d: Draw)
    requires ValidDraw(d)
    ensures DrawOf(Generate(d)) == d
  {
  }
}
