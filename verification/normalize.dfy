/** `normalize`, the canonicaliser applied to both the search box text and
    each shop's search token: lower-case, then fold the alef variants to a
    bare alef, taa marbuta to haa, and alef maksura to yaa. */
module TextNormalizer {
  import opened JsString

  const Alef: char := '\U{0627}'            // ا
  const AlefHamzaAbove: char := '\U{0623}'  // أ
  const AlefHamzaBelow: char := '\U{0625}'  // إ
  const AlefMadda: char := '\U{0622}'       // آ
  const TaaMarbuta: char := '\U{0629}'      // ة
  const Haa: char := '\U{0647}'             // ه
  const AlefMaksura: char := '\U{0649}'     // ى
  const Yaa: char := '\U{064A}'             // ي

  /** The character class `[أإآ]`. */
  const AlefVariants: set<char> := {AlefHamzaAbove, AlefHamzaBelow, AlefMadda}

  /** `s.replace(/[from]/g, to)` for a class of single characters and a
      one-character replacement. */
  function ReplaceAll(s: string, from: set<char>, to: char): (r: string)
    ensures |r| == |s|
    ensures forall i :: 0 <= i < |s| ==> r[i] == (if s[i] in from then to else s[i])
  {
    if s == [] then [] else [if s[0] in from then to else s[0]] + ReplaceAll(s[1..], from, to)
  }

  /** The script's chain, applied to a string: `toLowerCase`, then the three
      `replace` calls in order. The chain acts on each character on its own,
      as the one-step `FoldChar` does, so it keeps length and position. */
  function NormalizeText(s: string): (r: string)
    ensures |r| == |s|
    ensures forall i :: 0 <= i < |s| ==> r[i] == FoldChar(s[i])
  {
    var lower := ToLowerCase(s);
    var alef := ReplaceAll(lower, AlefVariants, Alef);
    var haa := ReplaceAll(alef, {TaaMarbuta}, Haa);
    ReplaceAll(haa, {AlefMaksura, Yaa}, Yaa)
  }

  /** `normalize(t)`: `String(t || "")` and then the chain. Total: a falsy
      property gives the empty string. */
  function Normalize(t: Field): (r: string)
    ensures !Truthy(t) ==> r == ""
    ensures t.Str? ==> r == NormalizeText(t.text)
  {
    NormalizeText(OrEmpty(t))
  }

  // ----- an independent, one-step description -----

  /** What normalisation does to a single character, written as one case
      split rather than as a chain of passes. */
  function FoldChar(c: char): char {
    if 'A' <= c <= 'Z' then (c as int + 32) as char
    else if c == AlefHamzaAbove || c == AlefHamzaBelow || c == AlefMadda then Alef
    else if c == TaaMarbuta then Haa
    else if c == AlefMaksura then Yaa
    else c
  }

  /** A character normalisation leaves alone: not an ASCII capital and not
      one of the five folded Arabic letters. */
  predicate IsCanonicalChar(c: char) {
    && !IsAsciiUpper(c)
    && c != AlefHamzaAbove && c != AlefHamzaBelow && c != AlefMadda
    && c != TaaMarbuta
    && c != AlefMaksura
  }

  predicate IsCanonical(s: string) {
    forall i :: 0 <= i < |s| ==> IsCanonicalChar(s[i])
  }

  /** `FoldChar` always yields a canonical character, and fixes exactly the
      canonical ones. */
  lemma FoldCharCanonical(c: char)
    ensures IsCanonicalChar(FoldChar(c))
    ensures FoldChar(c) == c <==> IsCanonicalChar(c)
  {
  }

  /** Normalised text never holds a capital letter, أ, إ, آ, ة or ى. */
  lemma NormalizeTextCanonical(s: string)
    ensures IsCanonical(NormalizeText(s))
  {
    forall i | 0 <= i < |s| ensures IsCanonicalChar(NormalizeText(s)[i]) {
      FoldCharCanonical(s[i]);
    }
  }

  /** Normalisation changes a string exactly when it is not canonical. */
  lemma NormalizeTextFixedPoint(s: string)
    ensures NormalizeText(s) == s <==> IsCanonical(s)
  {
    forall i | 0 <= i < |s| ensures FoldChar(s[i]) == s[i] <==> IsCanonicalChar(s[i]) {
      FoldCharCanonical(s[i]);
    }
    if NormalizeText(s) == s {
      assert forall i :: 0 <= i < |s| ==> FoldChar(s[i]) == s[i];
    }
  }

  /** Normalising twice is normalising once. */
  lemma NormalizeTextIdempotent(s: string)
    ensures NormalizeText(NormalizeText(s)) == NormalizeText(s)
  {
    NormalizeTextCanonical(s);
    NormalizeTextFixedPoint(NormalizeText(s));
  }

  /** Normalisation distributes over concatenation. */
  lemma NormalizeTextAppend(a: string, b: string)
    ensures NormalizeText(a + b) == NormalizeText(a) + NormalizeText(b)
  {
  }

  /** A block of `s` normalises to a block of the normalised `s`. */
  lemma NormalizeTextIncludes(s: string, q: string)
    requires Includes(s, q)
    ensures Includes(NormalizeText(s), NormalizeText(q))
  {
    var i :| 0 <= i <= |s| && q <= s[i..];
    assert NormalizeText(q) <= NormalizeText(s)[i..];
  }
}
