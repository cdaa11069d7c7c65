/** `String.prototype.trim`, which the task editor applies to the edited
    name: it drops the white space and line terminators of ECMAScript at
    both ends and keeps everything in between. */
module JsString {

  /** ECMAScript's WhiteSpace (tab, vertical tab, form feed, space,
      no-break space, zero-width no-break space and the space separators of
      Unicode) and LineTerminator (line feed, carriage return, line and
      paragraph separators). */
  function IsSpace(c: char): (b: bool)
    // within ASCII, exactly tab, line feed, vertical tab, form feed,
    // carriage return and space
    ensures c < '\U{0080}' ==> (b <==> '\t' <= c <= '\r' || c == ' ')
    // and none of the C1 control characters
    ensures '\U{0080}' <= c < '\U{00A0}' ==> !b
  {
    c == '\t' || c == '\n' || c == '\U{000B}' || c == '\U{000C}' || c == '\r' || c == ' ' ||
    c == '\U{00A0}' || c == '\U{1680}' || ('\U{2000}' <= c <= '\U{200A}') ||
    c == '\U{2028}' || c == '\U{2029}' || c == '\U{202F}' || c == '\U{205F}' ||
    c == '\U{3000}' || c == '\U{FEFF}'
  }

  predicate AllSpace(s: string) {
    forall i :: 0 <= i < |s| ==> IsSpace(s[i])
  }

  /** The number of white-space characters `s` starts with. */
  function Leading(s: string): (n: nat)
    ensures n <= |s|
    ensures forall i :: 0 <= i < n ==> IsSpace(s[i])
    ensures n < |s| ==> !IsSpace(s[n])
  {
    if s != [] && IsSpace(s[0]) then
      var k := Leading(s[1..]);
      assert forall i :: 1 <= i < k + 1 ==> s[i] == s[1..][i - 1];
      k + 1
    else 0
  }

  /** The number of white-space characters `s` ends with. */
  function Trailing(s: string): (n: nat)
    ensures n <= |s|
    ensures forall i :: |s| - n <= i < |s| ==> IsSpace(s[i])
    ensures n < |s| ==> !IsSpace(s[|s| - n - 1])
  {
    if s != [] && IsSpace(s[|s| - 1]) then
      var k := Trailing(s[..|s| - 1]);
      assert forall i :: 0 <= i < |s| - 1 ==> s[i] == s[..|s| - 1][i];
      k + 1
    else 0
  }

  /** Where the part `trim` keeps ends (exclusive): everything from there
      on is white space, and so is everything when nothing is kept. */
  function KeptEnd(s: string): (hi: nat)
    ensures Leading(s) <= hi <= |s|
    ensures forall i :: hi <= i < |s| ==> IsSpace(s[i])
    ensures Leading(s) < hi ==> !IsSpace(s[hi - 1])
    ensures Leading(s) == hi ==> AllSpace(s)
  {
    var lo := Leading(s);
    if lo == |s| then lo
    else
      assert !IsSpace(s[lo]);
      |s| - Trailing(s)
  }

  /** `s.trim()` */
  function Trim(s: string): (r: string)
    ensures r == s[Leading(s)..KeptEnd(s)]
    ensures r == [] || (!IsSpace(r[0]) && !IsSpace(r[|r| - 1]))
    ensures r == [] <==> AllSpace(s)
  {
    s[Leading(s)..KeptEnd(s)]
  }

  /** A slice with only white space around it and none at its ends is
      what `trim` keeps: the description above has one solution. */
  lemma TrimIsTheSlice(s: string, lo: nat, hi: nat)
    requires lo < hi <= |s|
    requires forall i :: 0 <= i < lo ==> IsSpace(s[i])
    requires forall i :: hi <= i < |s| ==> IsSpace(s[i])
    requires !IsSpace(s[lo]) && !IsSpace(s[hi - 1])
    ensures Trim(s) == s[lo..hi]
  {
    assert Leading(s) == lo;
    assert Trailing(s) == |s| - hi;
  }

  /** Trimming twice is trimming once. */
  lemma TrimIdempotent(s: string)
    ensures Trim(Trim(s)) == Trim(s)
  {
    var r := Trim(s);
    if r != [] {
      TrimIsTheSlice(r, 0, |r|);
    }
  }

  /** White space around white space is white space. */
  lemma PaddedSpace(pre: string, s: string, post: string)
    requires AllSpace(pre) && AllSpace(s) && AllSpace(post)
    ensures AllSpace(pre + s + post)
  {
    var t := pre + s + post;
    forall i | 0 <= i < |t| ensures IsSpace(t[i]) {
      if i < |pre| {
        assert t[i] == pre[i];
      } else if i < |pre| + |s| {
        assert t[i] == s[i - |pre|];
      } else {
        assert t[i] == post[i - |pre| - |s|];
      }
    }
  }

  /** White space around a string does not survive trimming. */
  lemma TrimIgnoresPadding(pre: string, s: string, post: string)
    requires AllSpace(pre) && AllSpace(post)
    ensures Trim(pre + s + post) == Trim(s)
  {
    var lo, hi := Leading(s), KeptEnd(s);
    if lo == hi {
      PaddedSpace(pre, s, post);
    } else {
      var t := pre + s + post;
      var lo', hi' := |pre| + lo, |pre| + hi;
      forall i | 0 <= i < lo' ensures IsSpace(t[i]) {
        if i < |pre| {
          assert t[i] == pre[i];
        } else {
          assert t[i] == s[i - |pre|];
        }
      }
      forall i | hi' <= i < |t| ensures IsSpace(t[i]) {
        if i < |pre| + |s| {
          assert t[i] == s[i - |pre|];
        } else {
          assert t[i] == post[i - |pre| - |s|];
        }
      }
      assert t[lo'] == s[lo] && t[hi' - 1] == s[hi - 1];
      assert t[lo'..hi'] == s[lo..hi] by {
        forall i | 0 <= i < hi - lo ensures t[lo'..hi'][i] == s[lo..hi][i] {
          assert t[lo' + i] == s[lo + i];
        }
      }
      TrimIsTheSlice(t, lo', hi');
    }
  }
}
