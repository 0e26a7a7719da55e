/** JavaScript's String.prototype.trim, as the create-playlist handler uses
    it to validate and store a playlist's name and description. */
module Text {
  import opened Basics

  /** The characters trim removes: ECMAScript's WhiteSpace (tab, vertical
      tab, form feed, space, no-break space, the byte order mark and the
      other Unicode space separators) and LineTerminator (line feed,
      carriage return, line and paragraph separators). */
  predicate IsSpace(c: char) {
    || ('\U{0009}' <= c <= '\U{000D}')
    || c == '\U{0020}' || c == '\U{00A0}' || c == '\U{1680}'
    || ('\U{2000}' <= c <= '\U{200A}')
    || c == '\U{2028}' || c == '\U{2029}' || c == '\U{202F}' || c == '\U{205F}'
    || c == '\U{3000}' || c == '\U{FEFF}'
  }

  predicate AllSpace(s: string) {
    forall i :: 0 <= i < |s| ==> IsSpace(s[i])
  }

  /** `s` without its leading white space: a suffix of `s` that does not
      start with a space, and everything cut off is space. */
  function TrimStart(s: string): (r: string)
    ensures |r| <= |s| && r == s[|s| - |r|..]
    ensures r != [] ==> !IsSpace(r[0])
    ensures AllSpace(s[..|s| - |r|])
  {
    if s == [] || !IsSpace(s[0]) then s
    else
      var r := TrimStart(s[1..]);
      assert s[..|s| - |r|] == [s[0]] + s[1..][..|s[1..]| - |r|];
      r
  }

  /** `s` without its trailing white space. */
  function TrimEnd(s: string): (r: string)
    ensures |r| <= |s| && r == s[..|r|]
    ensures r != [] ==> !IsSpace(r[|r| - 1])
    ensures AllSpace(s[|r|..])
  {
    if s == [] || !IsSpace(s[|s| - 1]) then s
    else
      var r := TrimEnd(s[..|s| - 1]);
      assert s[|r|..] == s[..|s| - 1][|r|..] + [s[|s| - 1]];
      r
  }

  /** String.prototype.trim: what is left of `s` without its leading and
      its trailing white space (`TrimSlice` locates it in `s`). */
  function Trim(s: string): (r: string)
    ensures |r| <= |s|
    ensures r != [] ==> !IsSpace(r[0]) && !IsSpace(r[|r| - 1])
  {
    TrimEnd(TrimStart(s))
  }

  /** `s` is its leading white space, the trimmed string and its trailing
      white space, in that order. */
  lemma TrimSlice(s: string)
    ensures var lead, trail := s[..|s| - |TrimStart(s)|], TrimStart(s)[|Trim(s)|..];
      && s == lead + Trim(s) + trail
      && AllSpace(lead) && AllSpace(trail)
  {
    var a := TrimStart(s);
    var r := TrimEnd(a);
    SplitAt(s, |s| - |a|);
    SplitAt(a, |r|);
    ConcatAssoc(s[..|s| - |a|], r, a[|r|..]);
  }

  lemma SplitAt(s: string, k: nat)
    requires k <= |s|
    ensures s == s[..k] + s[k..]
  {
  }

  lemma ConcatAssoc(a: string, b: string, c: string)
    ensures a + (b + c) == a + b + c
  {
  }

  /** Trimming leaves nothing exactly when the string is all white space. */
  lemma TrimEmpty(s: string)
    ensures Trim(s) == [] <==> AllSpace(s)
  {
    var lead, r := s[..|s| - |TrimStart(s)|], Trim(s);
    var trail := TrimStart(s)[|r|..];
    TrimSlice(s);
    if r == [] {
      assert s == lead + trail;
      forall k | 0 <= k < |s| ensures IsSpace(s[k]) {
        if k < |lead| {
          assert s[k] == lead[k];
        } else {
          assert s[k] == trail[k - |lead|];
        }
      }
    } else {
      assert s[|lead|] == r[0];
    }
  }

  /** Trimming a trimmed string changes nothing. */
  lemma TrimIdempotent(s: string)
    ensures Trim(Trim(s)) == Trim(s)
  {
    var r := Trim(s);
    if r != [] {
      assert TrimStart(r) == r;
      assert TrimEnd(r) == r;
    }
  }

  /** `!name || name.trim().length === 0`: the name is missing, empty or
      white space only. */
  predicate Blank(name: Option<string>): (r: bool)
    ensures r <==> name.None? || AllSpace(name.value)
  {
    if name.None? then true else TrimEmpty(name.value); |Trim(name.value)| == 0
  }

  /** `description?.trim()`. */
  function TrimOption(s: Option<string>): (r: Option<string>)
    ensures r.Some? <==> s.Some?
    ensures r.Some? ==> r.value == Trim(s.value)
  {
    match s
    case None => None
    case Some(v) => Some(Trim(v))
  }
}
