/**
 Normalisation of the raw `alpha_filter` query var (AtoZ.php, `set_query_var`).

 The stored value is a string: `''` (no filter), `'sym'` (titles that do not start with
 a letter) or one lowercase letter. `Selection` is the same three-way choice as a datatype,
 and `Classify` says which selection a raw input denotes; `Normalise` is the plugin's own
 string computation, and `NormaliseMeaning` ties the two together.
 */
module AlphaFilter {
  import opened Php

  /** The sentinel value of the symbols bucket. */
  const Sym: string := "sym"

  predicate IsSingleLetter(v: string) {
    |v| == 1 && IsLower(v[0])
  }

  /** The values a normalised `alpha_filter` can hold. */
  predicate IsCanonical(v: string) {
    v == "" || v == Sym || IsSingleLetter(v)
  }

  /** What a visitor asked for: everything, the symbols bucket, or one letter. */
  datatype Selection = NoFilter | Symbols | Letter(c: LowerLetter) {

    /** The query-var string that stands for this selection. */
    function Value(): (v: string)
      ensures IsCanonical(v)
    {
      match this
      case NoFilter => ""
      case Symbols => Sym
      case Letter(c) => [c]
    }
  }

  /**
   The selection a raw input denotes, read from its first byte: nothing for the empty
   input; a letter of either case selects that letter unless the whole input is "sym" in
   some casing; any other first byte selects the symbols bucket.
   */
  function Classify(raw: string): Selection {
    if raw == "" then NoFilter
    else if IsUpper(raw[0]) || IsLower(raw[0]) then
      if ToLower(raw) == Sym then Symbols else Letter(LowerChar(raw[0]))
    else Symbols
  }

  /**
   The normalisation of AtoZ.php:78-80: lowercase, then `'sym'` for the sentinel or a
   non-letter first byte, otherwise the first byte alone.
   */
  function Normalise(raw: string): (r: string)
    ensures IsCanonical(r)
    ensures r == "" <==> raw == ""
  {
    var alpha := ToLower(raw);
    if alpha == Sym || MatchesNonLetterPattern(FirstByte(alpha)) then Sym
    else FirstByte(alpha)
  }

  /** The string computation and the reading of the input agree on every input. */
  lemma NormaliseMeaning(raw: string)
    ensures Normalise(raw) == Classify(raw).Value()
  {
    if raw != "" {
      var alpha := ToLower(raw);
      assert alpha[0] == LowerChar(raw[0]);
      assert FirstByte(alpha) == [alpha[0]];
    }
  }

  /** Each selection's value denotes that selection again. */
  lemma ClassifyValue(sel: Selection)
    ensures Classify(sel.Value()) == sel
  {
    match sel
    case NoFilter =>
    case Symbols =>
      assert ToLower(Sym) == [LowerChar('s')] + ToLower("ym");
      assert ToLower("ym") == [LowerChar('y')] + ToLower("m");
      assert ToLower("m") == [LowerChar('m')] + ToLower("");
    case Letter(c) =>
      var v := sel.Value();
      assert ToLower(v)[0] == c;
      assert ToLower(v) != Sym;
  }

  /** Normalising an already normalised value returns it unchanged. */
  lemma NormaliseIdempotent(raw: string)
    ensures Normalise(Normalise(raw)) == Normalise(raw)
  {
    NormaliseMeaning(raw);
    var sel := Classify(raw);
    NormaliseMeaning(sel.Value());
    ClassifyValue(sel);
  }

  /** The canonical values are exactly the fixed points of normalisation. */
  lemma CanonicalIsFixedPoint(v: string)
    ensures IsCanonical(v) <==> Normalise(v) == v
  {
    if IsCanonical(v) {
      var sel := if v == "" then NoFilter else if v == Sym then Symbols else Letter(v[0]);
      assert sel.Value() == v;
      ClassifyValue(sel);
      NormaliseMeaning(v);
    }
  }

  /**
   How non-empty raw inputs are mapped (the empty input stays empty, by `Normalise`'s own
   contract): the sentinel in any casing, or a first byte that is not an ASCII letter, gives
   `'sym'`; otherwise the first letter, lowercased, with the rest of the input dropped.
   */
  lemma NormaliseCases(raw: string)
    ensures Normalise(raw) == Sym <==>
              ToLower(raw) == Sym || (|raw| > 0 && !IsUpper(raw[0]) && !IsLower(raw[0]))
    ensures forall c: LowerLetter :: Normalise(raw) == [c] <==>
              |raw| > 0 && LowerChar(raw[0]) == c && ToLower(raw) != Sym
  {
    NormaliseMeaning(raw);
  }

  /** Case does not matter: an input and its lowercase form normalise alike. */
  lemma NormaliseIgnoresCase(raw: string)
    ensures Normalise(ToLower(raw)) == Normalise(raw)
  {
    ToLowerIdempotent(raw);
  }
}
