/** The handful of Python string operations the system relies on:
    `str.strip`, `str.endswith`, the `in` substring test, and the regular
    expression `::\w+$` used to cut the type tag off a serialized graph value. */
module Text {

  /** Python's `\w`, restricted to ASCII letters, digits and underscore. */
  predicate IsWordChar(c: char)
  {
    || ('a' <= c <= 'z')
    || ('A' <= c <= 'Z')
    || ('0' <= c <= '9')
    || c == '_'
  }

  /** The characters Python's argument-less `str.strip()` removes
      (exactly those for which `str.isspace()` holds). */
  predicate IsSpace(c: char)
  {
    || c == ' '
    || ('\t' <= c <= '\r')
    || ('\U{1C}' <= c <= '\U{1F}')
    || c == '\U{85}'
    || c == '\U{A0}'
    || c == '\U{1680}'
    || ('\U{2000}' <= c <= '\U{200A}')
    || c == '\U{2028}'
    || c == '\U{2029}'
    || c == '\U{202F}'
    || c == '\U{205F}'
    || c == '\U{3000}'
  }

  /** The character removed by `str.strip('"')`. */
  predicate IsQuote(c: char)
  {
    c == '"'
  }

  // ---------------------------------------------------------------------
  // str.strip(chars)
  // ---------------------------------------------------------------------

  /** Length of the longest prefix of `s` made of dropped characters. */
  function LeadCount(s: string, drop: char -> bool): (n: nat)
    ensures n <= |s|
    ensures forall k :: 0 <= k < n ==> drop(s[k])
    ensures n < |s| ==> !drop(s[n])
    decreases |s|
  {
    if |s| == 0 || !drop(s[0]) then 0 else 1 + LeadCount(s[1..], drop)
  }

  /** Length of the longest suffix of `s` made of dropped characters. */
  function TrailCount(s: string, drop: char -> bool): (n: nat)
    ensures n <= |s|
    ensures forall k :: |s| - n <= k < |s| ==> drop(s[k])
    ensures n < |s| ==> !drop(s[|s| - n - 1])
    decreases |s|
  {
    if |s| == 0 || !drop(s[|s| - 1]) then 0 else 1 + TrailCount(s[..|s| - 1], drop)
  }

  /** `r` sits at offset `lo` of `s`, and everything of `s` around it is dropped. */
  ghost predicate PaddedAt(s: string, r: string, drop: char -> bool, lo: int)
  {
    && 0 <= lo && lo + |r| <= |s|
    && s[lo..lo + |r|] == r
    && (forall k :: 0 <= k < lo ==> drop(s[k]))
    && (forall k :: lo + |r| <= k < |s| ==> drop(s[k]))
  }

  /** `r` is `s` with some dropped characters removed from both ends. */
  ghost predicate IsPaddingOf(s: string, r: string, drop: char -> bool)
  {
    exists lo :: PaddedAt(s, r, drop, lo)
  }

  /** Neither end of `r` is a dropped character. */
  predicate Trimmed(r: string, drop: char -> bool)
  {
    |r| == 0 || (!drop(r[0]) && !drop(r[|r| - 1]))
  }

  /** Python's `s.strip(chars)`, the set of stripped characters given as `drop`. */
  function Strip(s: string, drop: char -> bool): (r: string)
    ensures Trimmed(r, drop)
    ensures IsPaddingOf(s, r, drop)
  {
    var lo := LeadCount(s, drop);
    if lo == |s| then
      assert PaddedAt(s, [], drop, lo);
      []
    else
      var hi := |s| - TrailCount(s, drop);
      assert lo < hi;
      assert PaddedAt(s, s[lo..hi], drop, lo);
      s[lo..hi]
  }

  /** A non-empty trimmed `r` padded into `s` starts where the leading run of
      dropped characters ends and stops where the trailing run begins. */
  lemma PaddedAtBounds(s: string, r: string, drop: char -> bool, lo: int)
    requires PaddedAt(s, r, drop, lo)
    requires 0 < |r| && Trimmed(r, drop)
    ensures lo == LeadCount(s, drop)
    ensures lo + |r| == |s| - TrailCount(s, drop)
  {
    var lead := LeadCount(s, drop);
    var trail := TrailCount(s, drop);
    assert s[lo] == r[0];
    assert s[lo + |r| - 1] == r[|r| - 1];
    assert lead < |s| ==> !drop(s[lead]);
    assert trail < |s| ==> !drop(s[|s| - trail - 1]);
  }

  /** `Strip` removes the most it can: the only trimmed string that `s` pads is `Strip(s)`. */
  lemma {:induction false} StripUnique(s: string, r: string, drop: char -> bool)
    requires IsPaddingOf(s, r, drop)
    requires Trimmed(r, drop)
    ensures r == Strip(s, drop)
  {
    var lo :| PaddedAt(s, r, drop, lo);
    var lead := LeadCount(s, drop);
    if |r| == 0 {
      assert lead == |s|;
    } else {
      PaddedAtBounds(s, r, drop, lo);
    }
  }

  /** Stripping twice strips no more than stripping once. */
  lemma StripIdempotent(s: string, drop: char -> bool)
    ensures Strip(Strip(s, drop), drop) == Strip(s, drop)
  {
    var t := Strip(s, drop);
    assert PaddedAt(t, t, drop, 0);
    StripUnique(t, t, drop);
  }

  /** `s.strip(chars) == ''` exactly when every character of `s` is stripped. */
  lemma StripEmptyIff(s: string, drop: char -> bool)
    ensures Strip(s, drop) == [] <==> forall k :: 0 <= k < |s| ==> drop(s[k])
  {
    var r := Strip(s, drop);
    var lo :| PaddedAt(s, r, drop, lo);
    var lead := LeadCount(s, drop);
    assert lead < |s| ==> !drop(s[lead]);
    if 0 < |r| {
      assert s[lo] == r[0];
    }
  }

  // ---------------------------------------------------------------------
  // str.endswith and the `in` operator on strings
  // ---------------------------------------------------------------------

  predicate EndsWith(s: string, suffix: string)
  {
    |suffix| <= |s| && s[|s| - |suffix|..] == suffix
  }

  predicate OccursAt(s: string, t: string, i: int)
  {
    0 <= i && i + |t| <= |s| && s[i..i + |t|] == t
  }

  /** Python's `t in s` for strings. */
  predicate Contains(s: string, t: string)
  {
    exists i | 0 <= i <= |s| - |t| :: OccursAt(s, t, i)
  }

  // ---------------------------------------------------------------------
  // re.sub(r'::\w+$', '', s)
  // ---------------------------------------------------------------------

  /** Length of the longest suffix of `s` made of word characters. */
  function TrailingWordCount(s: string): (n: nat)
    ensures n <= |s|
    ensures forall k :: |s| - n <= k < |s| ==> IsWordChar(s[k])
    ensures n < |s| ==> !IsWordChar(s[|s| - n - 1])
    decreases |s|
  {
    if |s| == 0 || !IsWordChar(s[|s| - 1]) then 0 else 1 + TrailingWordCount(s[..|s| - 1])
  }

  /** The pattern `::\w+$` matches `s` starting at offset `i`. */
  predicate TagAt(s: string, i: int)
  {
    && 0 <= i && i + 2 < |s|
    && s[i] == ':' && s[i + 1] == ':'
    && (forall k :: i + 2 <= k < |s| ==> IsWordChar(s[k]))
  }

  /** Where `::\w+$` can match: the `::` must sit right before the trailing
      run of word characters, because `:` is not a word character. */
  lemma TagPosition(s: string, i: int)
    requires TagAt(s, i)
    ensures i == |s| - TrailingWordCount(s) - 2
  {
    var n := TrailingWordCount(s);
    assert !IsWordChar(s[i + 1]);
    assert n < |s| ==> !IsWordChar(s[|s| - n - 1]);
  }

  /** Removes a trailing `::` followed by one or more word characters;
      any other string comes back unchanged. */
  function StripTypeTag(s: string): (r: string)
    ensures r <= s
    ensures forall i :: TagAt(s, i) ==> r == s[..i]
    ensures (forall i :: !TagAt(s, i)) ==> r == s
  {
    var n := TrailingWordCount(s);
    assert forall i :: TagAt(s, i) ==> i == |s| - n - 2 by {
      forall i | TagAt(s, i)
        ensures i == |s| - n - 2
      {
        TagPosition(s, i);
      }
    }
    if 0 < n && n + 2 <= |s| && s[|s| - n - 2] == ':' && s[|s| - n - 1] == ':' then
      assert TagAt(s, |s| - n - 2);
      s[..|s| - n - 2]
    else
      s
  }

  /** Appending a type tag and stripping it again gives back the payload,
      whatever the payload contains. */
  lemma TagRoundTrip(payload: string, tag: string)
    requires 0 < |tag|
    requires forall k :: 0 <= k < |tag| ==> IsWordChar(tag[k])
    ensures StripTypeTag(payload + "::" + tag) == payload
  {
    var s := payload + "::" + tag;
    assert TagAt(s, |payload|);
    assert s[..|payload|] == payload;
  }
}
