/** Python text operations used by the components: strip, string order, splitting and decimal text. */
module Text {

  /** The characters `str.strip` removes. */
  predicate IsSpace(c: char) {
    || c == ' ' || c == '\U{85}' || c == '\U{A0}' || c == '\U{1680}' || c == '\U{202F}'
    || c == '\U{205F}' || c == '\U{3000}' || c == '\U{2028}' || c == '\U{2029}'
    || '\U{9}' <= c <= '\U{D}' || '\U{1C}' <= c <= '\U{1F}' || '\U{2000}' <= c <= '\U{200A}'
  }

  function StripLeft(s: string): (r: string)
    ensures |r| <= |s|
    ensures r == "" || !IsSpace(r[0])
  {
    if s != "" && IsSpace(s[0]) then StripLeft(s[1..]) else s
  }

  function StripRight(s: string): (r: string)
    ensures r <= s
    ensures r == "" || !IsSpace(r[|r| - 1])
  {
    if s != "" && IsSpace(s[|s| - 1]) then StripRight(s[..|s| - 1]) else s
  }

  /** `s.strip()`. */
  function Strip(s: string): (r: string)
    ensures r == "" || (!IsSpace(r[0]) && !IsSpace(r[|r| - 1]))
  {
    var l := StripLeft(s);
    StripRight(l)
  }

  /** Nothing is left to strip. */
  predicate Stripped(s: string) {
    s == "" || (!IsSpace(s[0]) && !IsSpace(s[|s| - 1]))
  }

  /** Stripped text is exactly what strip leaves alone, so normalising an id twice is normalising it once. */
  lemma StripFixpoint(s: string)
    ensures Strip(s) == s <==> Stripped(s)
    ensures Strip(Strip(s)) == Strip(s)
  {
  }

  /** Strip leaves the text between the outer white space. */
  lemma StripExactly(s: string, r: string)
    ensures Strip(s) == r <==>
              exists i, j :: 0 <= i <= j <= |s| && r == s[i..j] && Stripped(r)
                          && (forall k :: 0 <= k < i ==> IsSpace(s[k])) && (forall k :: j <= k < |s| ==> IsSpace(s[k]))
  {
    var m := StrippedLeft(s);
    var n := StrippedRight(s[m..]);
    assert Strip(s) == s[m..m + n];
    if i, j :| 0 <= i <= j <= |s| && r == s[i..j] && Stripped(r)
             && (forall k :: 0 <= k < i ==> IsSpace(s[k])) && (forall k :: j <= k < |s| ==> IsSpace(s[k])) {
      if r != "" {
        assert r[0] == s[i] && r[|r| - 1] == s[j - 1];
        assert i == m;
        assert j == m + n;
      } else {
        assert forall k :: 0 <= k < |s| ==> IsSpace(s[k]);
        assert n == 0;
      }
    }
  }

  lemma {:induction false} StrippedLeft(s: string) returns (i: nat)
    ensures i <= |s| && StripLeft(s) == s[i..]
    ensures (forall k :: 0 <= k < i ==> IsSpace(s[k])) && (i < |s| ==> !IsSpace(s[i]))
  {
    if s != "" && IsSpace(s[0]) {
      i := StrippedLeft(s[1..]);
      i := i + 1;
    } else {
      i := 0;
    }
  }

  lemma {:induction false} StrippedRight(s: string) returns (j: nat)
    ensures j <= |s| && StripRight(s) == s[..j]
    ensures (forall k :: j <= k < |s| ==> IsSpace(s[k])) && (j > 0 ==> !IsSpace(s[j - 1]))
  {
    if s != "" && IsSpace(s[|s| - 1]) {
      j := StrippedRight(s[..|s| - 1]);
    } else {
      j := |s|;
    }
  }

  /** `s.lower()` on ASCII letters. */
  function Lower(s: string): string {
    if s == "" then ""
    else [if 'A' <= s[0] <= 'Z' then s[0] - 'A' + 'a' else s[0]] + Lower(s[1..])
  }
}
