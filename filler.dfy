/**
 * The filler text: `generate_random_alphanumeric(size)` in src/main.rs.
 *
 * The random choices are lifted out as an explicit sequence `draws` of
 * alphabet indices, one per generated character; `draws[i]` is the index
 * that `choose` picked for position `i`.
 */
module Filler {

  /** `n` consecutive characters starting at `first`. */
  function CharRange(first: char, n: nat): (r: string)
    requires first as int + n <= 0x80
    ensures |r| == n
    ensures forall i :: 0 <= i < n ==> r[i] as int == first as int + i
  {
    seq(n, i requires 0 <= i < n => (first as int + i) as char)
  }

  /**
   * The 62-character alphabet in the order the source lists it:
   * "abcdefghijklmnopqrstuvwxyzABCDEFGHIJKLMNOPQRSTUVWXYZ0123456789".
   */
  const Alphabet: string := CharRange('a', 26) + CharRange('A', 26) + CharRange('0', 10)

  /** A line break goes before every 60th character. */
  const LineWidth: nat := 60

  /** One random draw: an index into `Alphabet`. */
  type AlphaIndex = i: nat | i < 62

  predicate IsAlphanumeric(c: char) {
    'a' <= c <= 'z' || 'A' <= c <= 'Z' || '0' <= c <= '9'
  }

  /**
   * The alphabet is exactly `[a-zA-Z0-9]`: 62 characters, all alphanumeric,
   * pairwise distinct, and every alphanumeric character occurs in it.
   */
  lemma AlphabetIsAlphanumeric()
    ensures |Alphabet| == 62
    ensures forall i :: 0 <= i < |Alphabet| ==> IsAlphanumeric(Alphabet[i])
    ensures forall i, j :: 0 <= i < j < |Alphabet| ==> Alphabet[i] != Alphabet[j]
    ensures forall c :: IsAlphanumeric(c) <==> c in Alphabet
  {
    forall c | IsAlphanumeric(c)
      ensures c in Alphabet
    {
      var i := if 'a' <= c <= 'z' then c as int - 'a' as int
               else if 'A' <= c <= 'Z' then 26 + (c as int - 'A' as int)
               else 52 + (c as int - '0' as int);
      assert Alphabet[i] == c;
    }
  }

  /** A drawn character is alphanumeric, so never a line break or a markup character. */
  lemma DrawnCharacter(k: AlphaIndex)
    ensures IsAlphanumeric(Alphabet[k])
    ensures Alphabet[k] != '\n' && Alphabet[k] != '<'
  {
  }

  /** Whether the character for position `i` is preceded by a line break. */
  predicate BreaksBefore(i: nat) {
    i > 0 && i % LineWidth == 0
  }

  /** The text emitted for position `i` when `c` is drawn. */
  function Piece(i: nat, c: char): (r: string)
    ensures |r| == if BreaksBefore(i) then 2 else 1
    ensures BreaksBefore(i) ==> r[0] == '\n'
    ensures r[|r| - 1] == c
  {
    if BreaksBefore(i) then ['\n', c] else [c]
  }

  /** Number of line breaks in the text for `size` characters. */
  function BreakCount(size: nat): nat {
    if size == 0 then 0 else (size - 1) / LineWidth
  }

  /** `(0..size).map(...).collect()`: the pieces for positions 0 .. |draws|-1, in order. */
  function Generate(draws: seq<AlphaIndex>): (r: string)
    ensures |r| == |draws| + BreakCount(|draws|)
  {
    if |draws| == 0 then []
    else
      var n := |draws| - 1;
      Generate(draws[..n]) + Piece(n, Alphabet[draws[n]])
  }

  /** The alphabet characters picked by `draws`, without any layout. */
  function Letters(draws: seq<AlphaIndex>): (r: string)
    ensures |r| == |draws|
    ensures forall i :: 0 <= i < |draws| ==> r[i] == Alphabet[draws[i]]
  {
    seq(|draws|, i requires 0 <= i < |draws| => Alphabet[draws[i]])
  }

  /** `s` with every line break removed. */
  function DropBreaks(s: string): (r: string)
    ensures '\n' !in r
    ensures |r| <= |s|
  {
    if s == [] then []
    else if s[|s| - 1] == '\n' then DropBreaks(s[..|s| - 1])
    else DropBreaks(s[..|s| - 1]) + [s[|s| - 1]]
  }

  lemma {:induction false} DropBreaksAppend(a: string, b: string)
    ensures DropBreaks(a + b) == DropBreaks(a) + DropBreaks(b)
    decreases |b|
  {
    if b == [] {
      assert a + b == a;
    } else {
      var b' := b[..|b| - 1];
      assert (a + b)[..|a + b| - 1] == a + b';
      DropBreaksAppend(a, b');
    }
  }

  /** Dropping the line breaks from one piece leaves just its drawn character. */
  lemma DropBreaksPiece(i: nat, k: AlphaIndex)
    ensures DropBreaks(Piece(i, Alphabet[k])) == [Alphabet[k]]
  {
    var c := Alphabet[k];
    DrawnCharacter(k);
    assert [c][..0] == [];
    if BreaksBefore(i) {
      assert ['\n', c][..1] == ['\n'];
      assert ['\n'][..0] == [];
    }
  }

  lemma LettersSnoc(draws: seq<AlphaIndex>)
    requires |draws| > 0
    ensures Letters(draws) == Letters(draws[..|draws| - 1]) + [Alphabet[draws[|draws| - 1]]]
  {
    var n := |draws| - 1;
    var lhs, rhs := Letters(draws), Letters(draws[..n]) + [Alphabet[draws[n]]];
    forall i | 0 <= i < |draws| ensures lhs[i] == rhs[i] {
      if i < n {
        assert rhs[i] == Letters(draws[..n])[i] == Alphabet[draws[..n][i]];
      }
    }
  }

  /**
   * Removing the line breaks from the generated text leaves exactly the
   * `size` drawn alphabet characters, in order.
   */
  lemma {:induction false} GenerateWithoutBreaks(draws: seq<AlphaIndex>)
    ensures DropBreaks(Generate(draws)) == Letters(draws)
  {
    if |draws| > 0 {
      var n := |draws| - 1;
      var prev := Generate(draws[..n]);
      var piece := Piece(n, Alphabet[draws[n]]);
      assert Generate(draws) == prev + piece;
      GenerateWithoutBreaks(draws[..n]);
      DropBreaksAppend(prev, piece);
      DropBreaksPiece(n, draws[n]);
      LettersSnoc(draws);
    }
  }

  /** Where the character for position `i` lands in the generated text. */
  function Slot(i: nat): nat {
    i + i / LineWidth
  }

  /**
   * The layout of the generated text, as a closed form: every 61st character
   * (offsets 60, 121, 182, ...) is a line break and the character at any
   * other offset `j` is the one drawn for position `(j / 61) * 60 + j % 61`.
   */
  lemma {:induction false} GenerateAt(draws: seq<AlphaIndex>, j: nat)
    requires j < |Generate(draws)|
    ensures j % 61 == 60 ==> Generate(draws)[j] == '\n'
    ensures j % 61 != 60 ==>
      (j / 61) * 60 + j % 61 < |draws| &&
      Generate(draws)[j] == Alphabet[draws[(j / 61) * 60 + j % 61]]
  {
    var n := |draws| - 1;
    var prev := Generate(draws[..n]);
    var c := Alphabet[draws[n]];
    assert Generate(draws) == prev + Piece(n, c);
    if j < |prev| {
      GenerateAt(draws[..n], j);
    } else {
      var m, t := n / 60, n % 60;
      assert n == 60 * m + t;
      if BreaksBefore(n) {
        assert |prev| == 61 * m - 1;
        if j == |prev| {
          assert j == 61 * (m - 1) + 60;
        } else {
          assert j == 61 * m;
        }
      } else {
        assert |prev| == 61 * m + t;
        assert j == 61 * m + t;
      }
    }
  }

  /**
   * Line breaks sit exactly at offsets 60, 121, 182, ...: one after every 60
   * characters and nowhere else.
   */
  lemma {:induction false} BreakOffsets(draws: seq<AlphaIndex>, j: nat)
    requires j < |Generate(draws)|
    ensures Generate(draws)[j] == '\n' <==> j % 61 == 60
  {
    GenerateAt(draws, j);
    if j % 61 != 60 {
      DrawnCharacter(draws[(j / 61) * 60 + j % 61]);
    }
  }

  /** The offset of position `i` splits into 61-character lines as `i` does into 60. */
  lemma SlotDivMod(i: nat)
    ensures Slot(i) / 61 == i / 60 && Slot(i) % 61 == i % 60
    ensures i > 0 ==> ((Slot(i) - 1) % 61 == 60 <==> i % 60 == 0)
  {
    var m, t := i / 60, i % 60;
    assert i == 60 * m + t;
    assert Slot(i) == 61 * m + t;
    if i > 0 && t == 0 {
      assert Slot(i) - 1 == 61 * (m - 1) + 60;
    }
  }

  /** Positions `i > 0` with `i % 60 == 0` are preceded by a line break, no others. */
  lemma {:induction false} BreakBeforeSlot(draws: seq<AlphaIndex>, i: nat)
    requires 0 < i < |draws|
    ensures Slot(i) < |Generate(draws)|
    ensures Generate(draws)[Slot(i)] == Alphabet[draws[i]]
    ensures Generate(draws)[Slot(i) - 1] == '\n' <==> BreaksBefore(i)
  {
    SlotDivMod(i);
    assert Slot(i) < |Generate(draws)| by {
      assert BreakCount(|draws|) == (|draws| - 1) / 60 >= i / 60;
    }
    GenerateAt(draws, Slot(i));
    BreakOffsets(draws, Slot(i) - 1);
  }

  /** Every character of the filler is a line break or an alphanumeric character. */
  lemma {:induction false} GenerateCharacters(draws: seq<AlphaIndex>, j: nat)
    requires j < |Generate(draws)|
    ensures Generate(draws)[j] == '\n' || IsAlphanumeric(Generate(draws)[j])
    ensures Generate(draws)[j] != '<'
  {
    GenerateAt(draws, j);
    if j % 61 != 60 {
      DrawnCharacter(draws[(j / 61) * 60 + j % 61]);
    }
  }

  /** The filler holds no '<', so splicing it into markup cannot open a tag. */
  lemma {:induction false} FillerHasNoMarkup(draws: seq<AlphaIndex>)
    ensures '<' !in Generate(draws)
  {
    forall j | 0 <= j < |Generate(draws)|
      ensures Generate(draws)[j] != '<'
    {
      GenerateCharacters(draws, j);
    }
  }
}
