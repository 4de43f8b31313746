// Brazilian number formatting (funcoes/utils.py, formatar_numero_brl).
//
// The function first renders the number with Python's `{:,.Nf}`, which
// groups thousands with ',' and separates decimals with '.'. That rendering
// is taken here as the input string. What is modelled is the separator swap
// that follows: every ',' becomes a temporary 'X', then every '.' becomes
// ',', then every 'X' becomes '.'.

module NumberFormat {

  /** The character that stands in for ',' while '.' is being rewritten. */
  const Temporary: char := 'X'

  /** Python's `str.replace(a, b)` for single characters: every occurrence
      of `a` is replaced by `b`, left to right. */
  function ReplaceChar(s: string, a: char, b: char): (r: string)
    ensures |r| == |s|
    ensures forall i :: 0 <= i < |s| ==> r[i] == (if s[i] == a then b else s[i])
  {
    if s == [] then []
    else [if s[0] == a then b else s[0]] + ReplaceChar(s[1..], a, b)
  }

  /** The one-character effect of the whole chain. A temporary 'X' already
      present in the input is not told apart from a former ',' and ends up
      as '.'. */
  function SwapChar(c: char): char {
    if c == ',' then '.'
    else if c == '.' then ','
    else if c == Temporary then '.'
    else c
  }

  /** The swap chain `.replace(',', 'X').replace('.', ',').replace('X', '.')`.
      Each output character is the input character with the two separators
      exchanged: a thousands ',' becomes '.', the decimal '.' becomes ',',
      every other character except 'X' is left in place, and no temporary
      'X' survives. */
  function FormatBrl(formatted: string): (r: string)
    ensures |r| == |formatted|
    ensures forall i :: 0 <= i < |formatted| ==> r[i] == SwapChar(formatted[i])
    ensures Temporary !in r
  {
    var s1 := ReplaceChar(formatted, ',', Temporary);
    var s2 := ReplaceChar(s1, '.', ',');
    var s3 := ReplaceChar(s2, Temporary, '.');
    assert forall i :: 0 <= i < |formatted| ==> s3[i] == SwapChar(formatted[i]) by {
      forall i | 0 <= i < |formatted| ensures s3[i] == SwapChar(formatted[i]) {
        assert s1[i] == (if formatted[i] == ',' then Temporary else formatted[i]);
        assert s2[i] == (if s1[i] == '.' then ',' else s1[i]);
      }
    }
    s3
  }

  /** On text without 'X' (such as any output of `{:,.Nf}`) the swap is its
      own inverse. */
  lemma SwapInvolution(s: string)
    requires Temporary !in s
    ensures FormatBrl(FormatBrl(s)) == s
  {
    var r := FormatBrl(s);
    forall i | 0 <= i < |s| ensures FormatBrl(r)[i] == s[i] {
      assert s[i] != Temporary;
    }
  }

  /** The number of occurrences of `c` in `s`. */
  function Count(s: string, c: char): nat {
    if s == [] then 0 else (if s[0] == c then 1 else 0) + Count(s[1..], c)
  }

  /** The output has as many ',' as the input had '.', and as many '.' as
      the input had ',' and 'X' together. */
  lemma {:induction false} SeparatorCounts(s: string)
    ensures Count(FormatBrl(s), ',') == Count(s, '.')
    ensures Count(FormatBrl(s), '.') == Count(s, ',') + Count(s, Temporary)
  {
    if s != [] {
      SeparatorCounts(s[1..]);
      var r := FormatBrl(s);
      assert r[1..] == FormatBrl(s[1..]);
    }
  }

  /** The rendering of 1234567.89 with two decimals. */
  lemma MillionsExample(s: string)
    requires s == "1,234,567.89"
    ensures FormatBrl(s) == "1.234.567,89"
  {
  }
}
