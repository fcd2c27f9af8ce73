/** An optional value: an unset query var, a link without a filter value. */
module Optional {

  datatype Option<+T> = None | Some(value: T) {
    /** The value, or `default` when absent (as `WP_Query::get` falls back to `''`). */
    function GetOr(default: T): T {
      match this
      case Some(v) => v
      case None => default
    }
  }
}

/**
 The small part of PHP's runtime semantics that the A-Z archive plugin relies on:
 `empty()`, ASCII `strtolower`, `substr($s, 0, 1)` and the anchored one-character
 regular expressions it matches with `preg_match`.

 A PHP string is a sequence of bytes; here each `char` of a `string` stands for one byte.
 */
module Php {

  /** A PHP value as held in a query var. Only the shapes `empty()` distinguishes are kept. */
  datatype Value = Null | Bool(b: bool) | Int(i: int) | Str(s: string) | List(items: seq<Value>)

  /** `empty()` on a string: only `''` and `'0'` are empty. */
  predicate EmptyString(s: string) {
    s == "" || s == "0"
  }

  /** PHP's `empty()`: null, false, 0, an empty or "0" string, an empty array. */
  predicate Empty(v: Value) {
    match v
    case Null => true
    case Bool(b) => !b
    case Int(i) => i == 0
    case Str(s) => EmptyString(s)
    case List(items) => |items| == 0
  }

  predicate IsUpper(c: char) {
    'A' <= c <= 'Z'
  }

  predicate IsLower(c: char) {
    'a' <= c <= 'z'
  }

  /** A lowercase ASCII letter, the alphabet of the filter. */
  type LowerLetter = c: char | 'a' <= c <= 'z' witness 'a'

  /** `strtolower` on one byte: ASCII case folding only, every other byte kept. */
  function LowerChar(c: char): (r: char)
    ensures IsLower(r) <==> IsUpper(c) || IsLower(c)
    ensures !IsUpper(r)
    ensures !IsUpper(c) ==> r == c
    ensures IsUpper(c) ==> r as int == c as int + 32
  {
    if IsUpper(c) then (c as int + 32) as char else c
  }

  /** `strtolower`: folds every byte independently and keeps the length. */
  function ToLower(s: string): (r: string)
    ensures |r| == |s|
    ensures forall i :: 0 <= i < |s| ==> r[i] == LowerChar(s[i])
  {
    if s == [] then [] else [LowerChar(s[0])] + ToLower(s[1..])
  }

  /** Folding twice is folding once. */
  lemma ToLowerIdempotent(s: string)
    ensures ToLower(ToLower(s)) == ToLower(s)
  {
    var once := ToLower(s);
    var twice := ToLower(once);
    assert |twice| == |once|;
    forall i | 0 <= i < |once|
      ensures twice[i] == once[i]
    {
      assert once[i] == LowerChar(s[i]);
    }
  }

  /** `substr($s, 0, 1)`: the first byte, or `''` for the empty string (PHP 8). */
  function FirstByte(s: string): (r: string)
    ensures |s| == 0 ==> r == ""
    ensures |s| > 0 ==> r == [s[0]]
  {
    s[..if |s| == 0 then 0 else 1]
  }

  /**
   `preg_match('/^[^a-z]$/', t)`: one byte outside a-z, optionally followed by a final
   newline, because PCRE's `$` also matches just before a newline that ends the subject.
   */
  predicate MatchesNonLetterPattern(t: string) {
    (|t| == 1 || (|t| == 2 && t[1] == '\n')) && !IsLower(t[0])
  }

  /** `preg_match('/^[a-z]$/', t)`: one byte in a-z, optionally followed by a final newline. */
  predicate MatchesLetterPattern(t: string) {
    (|t| == 1 || (|t| == 2 && t[1] == '\n')) && IsLower(t[0])
  }
}
