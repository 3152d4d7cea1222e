/**
 * The two pieces of Rust's standard library that the /proc/stat row parser
 * relies on: `str::split_whitespace` and `u64::from_str` (radix 10).
 * Each comes with an independent way of building its input, and the
 * round-trip lemmas relate the two.
 */
module StdText {
  import opened Wrappers

  /** Rust's `u64`. */
  type u64 = x: int | 0 <= x < 0x1_0000_0000_0000_0000

  const U64Limit: int := 0x1_0000_0000_0000_0000

  /** The Unicode White_Space property, which `char::is_whitespace` tests. */
  predicate IsWhitespace(c: char) {
    || c == ' '
    || '\t' <= c <= '\r'
    || c == '\U{0085}' || c == '\U{00A0}' || c == '\U{1680}'
    || '\U{2000}' <= c <= '\U{200A}'
    || c == '\U{2028}' || c == '\U{2029}' || c == '\U{202F}'
    || c == '\U{205F}' || c == '\U{3000}'
  }

  /** A token `split_whitespace` can yield: non-empty, no whitespace inside. */
  predicate IsWord(w: string) {
    |w| > 0 && forall i :: 0 <= i < |w| ==> !IsWhitespace(w[i])
  }

  /** The longest prefix of `s` that holds no whitespace. */
  function LeadingWord(s: string): (w: string)
    ensures |w| <= |s| && w == s[..|w|]
    ensures forall i :: 0 <= i < |w| ==> !IsWhitespace(w[i])
    ensures |w| < |s| ==> IsWhitespace(s[|w|])
  {
    if s == [] || IsWhitespace(s[0]) then [] else [s[0]] + LeadingWord(s[1..])
  }

  /** `str::split_whitespace`: the maximal whitespace-free runs of `s`, in order. */
  function SplitWhitespace(s: string): (words: seq<string>)
    ensures forall k :: 0 <= k < |words| ==> IsWord(words[k])
    decreases |s|
  {
    if s == [] then []
    else if IsWhitespace(s[0]) then SplitWhitespace(s[1..])
    else
      var w := LeadingWord(s);
      [w] + SplitWhitespace(s[|w|..])
  }

  /** The words separated by single spaces, as a writer of the table would lay them out. */
  function JoinWords(words: seq<string>): string
  {
    if |words| == 0 then ""
    else if |words| == 1 then words[0]
    else words[0] + " " + JoinWords(words[1..])
  }

  lemma {:induction false} LeadingWordOf(w: string, rest: string)
    requires forall i :: 0 <= i < |w| ==> !IsWhitespace(w[i])
    requires rest == [] || IsWhitespace(rest[0])
    ensures LeadingWord(w + rest) == w
  {
    if w != [] {
      assert (w + rest)[1..] == w[1..] + rest;
      LeadingWordOf(w[1..], rest);
    }
  }

  /** A word followed by a space is split off as the first token. */
  lemma SplitAfterWord(w: string, tail: string)
    requires IsWord(w)
    ensures SplitWhitespace(w + " " + tail) == [w] + SplitWhitespace(tail)
  {
    var rest := " " + tail;
    assert w + " " + tail == w + rest;
    LeadingWordOf(w, rest);
    assert (w + rest)[|w|..] == rest;
    assert rest[1..] == tail;
  }

  /** Splitting a space-joined list of words gives back exactly those words. */
  lemma {:induction false} SplitJoinRoundTrip(words: seq<string>)
    requires forall k :: 0 <= k < |words| ==> IsWord(words[k])
    ensures SplitWhitespace(JoinWords(words)) == words
  {
    if |words| == 1 {
      var w := words[0];
      LeadingWordOf(w, []);
      assert w + [] == w;
      assert w[|w|..] == [];
    } else if |words| > 1 {
      SplitAfterWord(words[0], JoinWords(words[1..]));
      SplitJoinRoundTrip(words[1..]);
      assert words == [words[0]] + words[1..];
    }
  }

  predicate IsDigit(c: char) { '0' <= c <= '9' }

  predicate AllDigits(s: string) { forall i :: 0 <= i < |s| ==> IsDigit(s[i]) }

  function DigitValue(c: char): nat
    requires IsDigit(c)
  {
    c as int - '0' as int
  }

  function DigitChar(d: nat): char
    requires d < 10
  {
    (d + '0' as int) as char
  }

  /** The number a string of decimal digits denotes, most significant first. */
  function DecimalValue(ds: string): nat
    requires AllDigits(ds)
    decreases |ds|
  {
    if ds == [] then 0 else 10 * DecimalValue(ds[..|ds| - 1]) + DigitValue(ds[|ds| - 1])
  }

  /** `u64::from_str`: an optional `+`, then one or more ASCII digits whose value fits in 64 bits. */
  function ParseU64(s: string): (r: Option<u64>)
    ensures r.Some? ==> |s| > 0 && (s[0] == '+' || IsDigit(s[0]))
    ensures r.Some? ==> forall i :: 1 <= i < |s| ==> IsDigit(s[i])
  {
    var digits := if s != [] && s[0] == '+' then s[1..] else s;
    if digits == [] || !AllDigits(digits) then None
    else
      var v := DecimalValue(digits);
      if v < U64Limit then Some(v) else None
  }

  /** The shortest decimal spelling of `v`, as the kernel prints a counter. */
  function DecimalString(v: nat): (s: string)
    ensures |s| > 0 && AllDigits(s)
  {
    if v < 10 then [DigitChar(v)] else DecimalString(v / 10) + [DigitChar(v % 10)]
  }

  lemma {:induction false} DecimalRoundTrip(v: nat)
    ensures DecimalValue(DecimalString(v)) == v
  {
    if v >= 10 {
      var s := DecimalString(v);
      assert s[..|s| - 1] == DecimalString(v / 10);
      DecimalRoundTrip(v / 10);
    }
  }

  /** `from_str` reads back every value printed in decimal, with or without a `+`, and refuses
      a value beyond 64 bits and a `-` sign. */
  lemma ParseU64RoundTrip(v: nat)
    ensures v < U64Limit ==> ParseU64(DecimalString(v)) == Some(v)
    ensures v < U64Limit ==> ParseU64("+" + DecimalString(v)) == Some(v)
    ensures v >= U64Limit ==> ParseU64(DecimalString(v)) == None
    ensures ParseU64("-" + DecimalString(v)) == None
  {
    DecimalRoundTrip(v);
    assert ("+" + DecimalString(v))[1..] == DecimalString(v);
    assert !IsDigit(("-" + DecimalString(v))[0]);
  }

  /** The empty string and a lone sign are not numbers. */
  lemma ParseU64RejectsSignsAlone()
    ensures ParseU64("") == None && ParseU64("+") == None && ParseU64("-") == None
  {
    assert !AllDigits("-");
  }
}
