/**
 * Character classes of Python's `re` module (Unicode `str` patterns) and the two
 * string cleaners the script relies on: `remove_emojis` and `str.strip`.
 */
module Sanitize {

  /** Python's `str.isspace`, which is also what `\s` matches in a `str` pattern. */
  predicate IsSpace(c: char) {
    ('\t' <= c <= '\r') || ('\U{1C}' <= c <= '\U{1F}') || c == ' ' ||
    c == '\U{85}' || c == '\U{A0}' || c == '\U{1680}' || ('\U{2000}' <= c <= '\U{200A}') ||
    c == '\U{2028}' || c == '\U{2029}' || c == '\U{202F}' || c == '\U{205F}' || c == '\U{3000}'
  }

  /**
   * `\w`: `_` and the characters `str.isalnum` accepts. Up to U+00FF these are listed
   * (the letters, digits and numerics of Latin-1); above U+00FF the Unicode character
   * database decides, and `wide` stands for that table.
   */
  predicate IsWordChar(c: char, wide: char -> bool) {
    ('0' <= c <= '9') || ('A' <= c <= 'Z') || ('a' <= c <= 'z') || c == '_' ||
    c == '\U{AA}' || c == '\U{B2}' || c == '\U{B3}' || c == '\U{B5}' || c == '\U{B9}' ||
    c == '\U{BA}' || ('\U{BC}' <= c <= '\U{BE}') || ('\U{C0}' <= c <= '\U{D6}') ||
    ('\U{D8}' <= c <= '\U{F6}') || ('\U{F8}' <= c <= '\U{FF}') ||
    (c > '\U{FF}' && wide(c))
  }

  /** The characters `remove_emojis` keeps: the complement of `[^\w\s\-/&]`. */
  predicate Kept(c: char, wide: char -> bool) {
    IsWordChar(c, wide) || IsSpace(c) || c == '-' || c == '/' || c == '&'
  }

  /** `Kept` for one word table, as a character class. */
  function KeptBy(wide: char -> bool): char -> bool {
    c => Kept(c, wide)
  }

  /** Every character of `s` satisfies `keep`. */
  predicate AllKept(s: string, keep: char -> bool) {
    forall i :: 0 <= i < |s| ==> keep(s[i])
  }

  /**
   * `re.sub("[^...]", "", s)` for a character class: the characters of `s` that satisfy
   * `keep`, in their order.
   */
  function Filter(s: string, keep: char -> bool): (r: string)
    ensures |r| <= |s|
    ensures AllKept(r, keep)
  {
    if s == [] then []
    else
      var rest := Filter(s[1..], keep);
      if keep(s[0]) then [s[0]] + rest else rest
  }

  /** Filtering commutes with concatenation. */
  lemma {:induction false} FilterAppend(a: string, b: string, keep: char -> bool)
    ensures Filter(a + b, keep) == Filter(a, keep) + Filter(b, keep)
  {
    if a == [] {
      assert a + b == b;
    } else {
      assert (a + b)[0] == a[0] && (a + b)[1..] == a[1..] + b;
      FilterAppend(a[1..], b, keep);
    }
  }

  /** A string is left unchanged exactly when every one of its characters is kept. */
  lemma {:induction false} FilterFixed(s: string, keep: char -> bool)
    ensures Filter(s, keep) == s <==> AllKept(s, keep)
  {
    if s != [] {
      FilterFixed(s[1..], keep);
      if !keep(s[0]) {
        assert |Filter(s, keep)| < |s| by { assert Filter(s, keep) == Filter(s[1..], keep); }
      }
    }
  }

  /** Filtering twice is the same as filtering once. */
  lemma FilterIdempotent(s: string, keep: char -> bool)
    ensures Filter(Filter(s, keep), keep) == Filter(s, keep)
  {
    FilterFixed(Filter(s, keep), keep);
  }

  /** How many characters of `s` satisfy `keep`. */
  function KeptCount(s: string, keep: char -> bool): (n: nat)
    ensures n <= |s|
  {
    if s == [] then 0 else (if keep(s[0]) then 1 else 0) + KeptCount(s[1..], keep)
  }

  /**
   * The output is the input's subsequence of kept characters: a kept character at
   * index `k` of the input is at index `KeptCount(s[..k])` of the output.
   */
  lemma {:induction false} FilterSubsequence(s: string, keep: char -> bool, k: nat)
    requires k < |s| && keep(s[k])
    ensures KeptCount(s[..k], keep) < |Filter(s, keep)|
    ensures Filter(s, keep)[KeptCount(s[..k], keep)] == s[k]
  {
    var rest := Filter(s[1..], keep);
    if k == 0 {
      assert s[..k] == [];
      assert Filter(s, keep) == [s[0]] + rest;
    } else {
      FilterSubsequence(s[1..], keep, k - 1);
      var n := KeptCount(s[1..][..k - 1], keep);
      assert s[..k][1..] == s[1..][..k - 1];
      assert KeptCount(s[..k], keep) == (if keep(s[0]) then 1 else 0) + n;
      if keep(s[0]) {
        assert Filter(s, keep) == [s[0]] + rest;
      } else {
        assert Filter(s, keep) == rest;
      }
    }
  }

  /**
   * `remove_emojis`: deletes every character outside word characters, whitespace,
   * `-`, `/` and `&`.
   */
  function RemoveEmojis(s: string, wide: char -> bool): (r: string)
    ensures |r| <= |s| && AllKept(r, KeptBy(wide))
  {
    Filter(s, KeptBy(wide))
  }

  /** Sanitising twice is the same as sanitising once. */
  lemma RemoveEmojisIdempotent(s: string, wide: char -> bool)
    ensures RemoveEmojis(RemoveEmojis(s, wide), wide) == RemoveEmojis(s, wide)
  {
    FilterIdempotent(s, KeptBy(wide));
  }

  /**
   * A title whose only unkept character is a trailing emoji loses the emoji and nothing
   * else, so the space in front of it stays: "Nike Air Max 90 Trainers UK 9 " + U+1F525
   * becomes "Nike Air Max 90 Trainers UK 9 ", trailing space included.
   */
  lemma RemoveTrailingEmoji(t: string, e: char, wide: char -> bool)
    requires AllKept(t, KeptBy(wide)) && !Kept(e, wide)
    ensures RemoveEmojis(t + [e], wide) == t
  {
    FilterAppend(t, [e], KeptBy(wide));
    FilterFixed(t, KeptBy(wide));
  }

  /**
   * The worked example: the fire emoji U+1F525 is a symbol, not alphanumeric, so it
   * goes and the text before it, trailing space included, stays.
   */
  lemma EmojiTitleExample(wide: char -> bool)
    requires !wide('\U{1F525}')
    ensures RemoveEmojis("Nike Air Max 90 Trainers UK 9 \U{1F525}", wide) == "Nike Air Max 90 Trainers UK 9 "
  {
    var t := "Nike Air Max 90 Trainers UK 9 ";
    assert AllKept(t, KeptBy(wide));
    assert t + ['\U{1F525}'] == "Nike Air Max 90 Trainers UK 9 \U{1F525}";
    RemoveTrailingEmoji(t, '\U{1F525}', wide);
  }

  // ---------------------------------------------------------------- str.strip

  /** The length of the leading run of characters in the class `sp`. */
  function LeadRun(s: string, sp: char -> bool): (n: nat)
    ensures n <= |s|
  {
    if s != [] && sp(s[0]) then 1 + LeadRun(s[1..], sp) else 0
  }

  /** The length of the trailing run of characters in the class `sp`. */
  function TrailRun(s: string, sp: char -> bool): (n: nat)
    ensures n <= |s|
  {
    if s != [] && sp(s[|s| - 1]) then 1 + TrailRun(s[..|s| - 1], sp) else 0
  }

  /** The leading run is all in the class and is followed by a character that is not. */
  lemma {:induction false} LeadRunMaximal(s: string, sp: char -> bool)
    ensures forall i :: 0 <= i < LeadRun(s, sp) ==> sp(s[i])
    ensures LeadRun(s, sp) < |s| ==> !sp(s[LeadRun(s, sp)])
  {
    if s != [] && sp(s[0]) {
      LeadRunMaximal(s[1..], sp);
      forall i | 1 <= i < LeadRun(s, sp) ensures sp(s[i]) {
        assert s[i] == s[1..][i - 1];
      }
    }
  }

  /** The trailing run is all in the class and is preceded by a character that is not. */
  lemma {:induction false} TrailRunMaximal(s: string, sp: char -> bool)
    ensures forall i :: |s| - TrailRun(s, sp) <= i < |s| ==> sp(s[i])
    ensures TrailRun(s, sp) < |s| ==> !sp(s[|s| - 1 - TrailRun(s, sp)])
  {
    if s != [] && sp(s[|s| - 1]) {
      TrailRunMaximal(s[..|s| - 1], sp);
    }
  }

  /** `str.strip(chars)` for a character class `sp`: drops both runs. */
  function Trim(s: string, sp: char -> bool): string {
    var t := s[LeadRun(s, sp)..];
    t[..|t| - TrailRun(t, sp)]
  }

  /** Trimming keeps a contiguous slice, starting where the leading run ends. */
  lemma TrimIsSlice(s: string, sp: char -> bool)
    ensures var r, a := Trim(s, sp), LeadRun(s, sp); a + |r| <= |s| && r == s[a..a + |r|]
  {
    var a := LeadRun(s, sp);
    var t := s[a..];
    assert Trim(s, sp) == t[..|t| - TrailRun(t, sp)];
  }

  /** What trimming keeps neither starts nor ends with a class member. */
  lemma TrimEnds(s: string, sp: char -> bool)
    ensures var r := Trim(s, sp); r == [] || (!sp(r[0]) && !sp(r[|r| - 1]))
  {
    var a := LeadRun(s, sp);
    var t := s[a..];
    var b := TrailRun(t, sp);
    var r := Trim(s, sp);
    assert r == t[..|t| - b];
    if r != [] {
      LeadRunMaximal(s, sp);
      TrailRunMaximal(t, sp);
      assert r[0] == s[a];
      assert r[|r| - 1] == t[|t| - 1 - b];
    }
  }

  /** What trimming drops is all in the class. */
  lemma TrimDropsClass(s: string, sp: char -> bool)
    ensures var r, a := Trim(s, sp), LeadRun(s, sp);
      forall i :: 0 <= i < |s| && !(a <= i < a + |r|) ==> sp(s[i])
  {
    var a := LeadRun(s, sp);
    var t := s[a..];
    var b := TrailRun(t, sp);
    assert |Trim(s, sp)| == |t| - b;
    LeadRunMaximal(s, sp);
    TrailRunMaximal(t, sp);
    forall i | a + |t| - b <= i < |s| ensures sp(s[i]) {
      assert s[i] == t[i - a];
    }
  }

  /**
   * What trimming keeps is the slice of `s` from its first to its last character
   * outside the class: everything around it is in the class and it neither starts nor
   * ends with a class member.
   */
  lemma TrimSlice(s: string, sp: char -> bool)
    ensures var r, a := Trim(s, sp), LeadRun(s, sp);
      && a + |r| <= |s| && r == s[a..a + |r|]
      && (r == [] || (!sp(r[0]) && !sp(r[|r| - 1])))
      && forall i :: 0 <= i < |s| && !(a <= i < a + |r|) ==> sp(s[i])
  {
    TrimIsSlice(s, sp);
    TrimEnds(s, sp);
    TrimDropsClass(s, sp);
  }

  /** `str.strip()`: drops leading and trailing whitespace. */
  function Strip(s: string): string {
    Trim(s, IsSpace)
  }

  /** What `strip` keeps: the slice between the whitespace runs at either end. */
  lemma StripSlice(s: string)
    ensures var r, a := Strip(s), LeadRun(s, IsSpace);
      && a + |r| <= |s| && r == s[a..a + |r|]
      && (r == [] || (!IsSpace(r[0]) && !IsSpace(r[|r| - 1])))
      && forall i :: 0 <= i < |s| && !(a <= i < a + |r|) ==> IsSpace(s[i])
  {
    TrimSlice(s, IsSpace);
  }

  /** Stripping leaves nothing exactly when the whole string is whitespace. */
  lemma StripEmpty(s: string)
    ensures Strip(s) == [] <==> forall i :: 0 <= i < |s| ==> IsSpace(s[i])
  {
    StripSlice(s);
  }
}
