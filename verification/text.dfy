/** `String.prototype.trim` as the task list uses it: strip white space and
    line terminators from both ends of a string. */
module Text {

  /** The code points `trim` strips: the ECMAScript WhiteSpace set (tab,
      vertical tab, form feed, space, no-break space, the byte order mark and
      every Unicode space separator) and the LineTerminator set (line feed,
      carriage return, line and paragraph separators). */
  predicate IsWs(c: char) {
    || c == '\t' || c == '\U{000B}' || c == '\U{000C}' || c == ' '
    || c == '\U{00A0}' || c == '\U{FEFF}'
    || c == '\n' || c == '\r' || c == '\U{2028}' || c == '\U{2029}'
    || c == '\U{1680}' || ('\U{2000}' <= c <= '\U{200A}')
    || c == '\U{202F}' || c == '\U{205F}' || c == '\U{3000}'
  }

  /** The WhiteSpace code points of section 12.2 of ECMA-262: tab, vertical
      tab, form feed, space, no-break space, zero width no-break space and
      the Unicode category Zs. */
  const WhiteSpace: set<char> := {
    '\t', '\U{000B}', '\U{000C}', ' ', '\U{00A0}', '\U{FEFF}',
    '\U{1680}', '\U{2000}', '\U{2001}', '\U{2002}', '\U{2003}', '\U{2004}',
    '\U{2005}', '\U{2006}', '\U{2007}', '\U{2008}', '\U{2009}', '\U{200A}',
    '\U{202F}', '\U{205F}', '\U{3000}'
  }

  /** The LineTerminator code points of section 12.3 of ECMA-262. */
  const LineTerminators: set<char> := { '\n', '\r', '\U{2028}', '\U{2029}' }

  /** `IsWs` is exactly the union of the two tables of ECMA-262. */
  lemma IsWsMatchesTables(c: char)
    ensures IsWs(c) <==> c in WhiteSpace + LineTerminators
  {
  }

  /** Every character of `s` is white space (the empty string included):
      exactly the strings `trim` turns into `''`. */
  predicate Blank(s: string) {
    forall i :: 0 <= i < |s| ==> IsWs(s[i])
  }

  /** A string `trim` leaves as it is and that is not empty: the shape of
      every text the task list stores. */
  predicate Clean(s: string) {
    s != [] && !IsWs(s[0]) && !IsWs(s[|s| - 1])
  }

  /** Scanning forward from `i`: the index of the first character that is
      not white space, or `|s|` when there is none. */
  function FirstNonWs(s: string, i: nat): (k: nat)
    requires i <= |s|
    ensures i <= k <= |s|
    ensures forall j :: i <= j < k ==> IsWs(s[j])
    ensures k == |s| || !IsWs(s[k])
    decreases |s| - i
  {
    if i < |s| && IsWs(s[i]) then FirstNonWs(s, i + 1) else i
  }

  /** Scanning backward from `i`: one past the last character before `i`
      that is not white space, or 0 when there is none. */
  function LastNonWs(s: string, i: nat): (k: nat)
    requires i <= |s|
    ensures k <= i
    ensures forall j :: k <= j < i ==> IsWs(s[j])
    ensures k == 0 || !IsWs(s[k - 1])
    decreases i
  {
    if i > 0 && IsWs(s[i - 1]) then LastNonWs(s, i - 1) else i
  }

  /** `s.trim()`: empty exactly when `s` is blank, and otherwise a string
      with no white space at either end. */
  function Trim(s: string): (r: string)
    ensures |r| <= |s|
    ensures r == [] <==> Blank(s)
    ensures r != [] ==> Clean(r)
  {
    var a := FirstNonWs(s, 0);
    var b := LastNonWs(s, |s|);
    if a < b then s[a..b] else []
  }

  /** When some character is not white space, the forward scan stops
      before the backward scan does. */
  lemma ScansMeet(s: string)
    ensures FirstNonWs(s, 0) < LastNonWs(s, |s|) <==> !Blank(s)
    ensures FirstNonWs(s, 0) >= LastNonWs(s, |s|) ==> FirstNonWs(s, 0) == |s|
  {
    var a := FirstNonWs(s, 0);
    var b := LastNonWs(s, |s|);
    if a < |s| {
      assert !IsWs(s[a]);
      assert a < b;
    }
  }

  /** `trim` is fully determined by its contract: whenever `s` is a clean
      (or empty) middle between two blank margins, `trim` returns that middle. */
  lemma TrimOfPadded(a: string, m: string, b: string)
    requires Blank(a) && Blank(b)
    requires m == [] || Clean(m)
    ensures Trim(a + m + b) == m
  {
    var s := a + m + b;
    if m == [] {
      assert Blank(s) by {
        forall k | 0 <= k < |s| ensures IsWs(s[k]) {
          if k < |a| { assert s[k] == a[k]; } else { assert s[k] == b[k - |a|]; }
        }
      }
    } else {
      var lo := |a|;
      var hi := |a| + |m|;
      assert s[lo] == m[0] && s[hi - 1] == m[|m| - 1];
      var f := FirstNonWs(s, 0);
      var l := LastNonWs(s, |s|);
      assert forall k :: 0 <= k < lo ==> s[k] == a[k];
      assert forall k :: hi <= k < |s| ==> s[k] == b[k - hi];
      assert f == lo && l == hi;
      assert s[lo..hi] == m;
    }
  }

  /** The converse: `trim` keeps a contiguous slice of its input and
      removes only blank margins. */
  lemma TrimIsSlice(s: string)
    ensures exists i, j :: 0 <= i <= j <= |s| && Trim(s) == s[i..j]
                           && Blank(s[..i]) && Blank(s[j..])
  {
    var a := FirstNonWs(s, 0);
    var b := LastNonWs(s, |s|);
    ScansMeet(s);
    if a < b {
      assert Blank(s[..a]) by {
        forall k | 0 <= k < a ensures IsWs(s[..a][k]) { assert s[..a][k] == s[k]; }
      }
      assert Blank(s[b..]) by {
        forall k | 0 <= k < |s| - b ensures IsWs(s[b..][k]) { assert s[b..][k] == s[b + k]; }
      }
      assert Trim(s) == s[a..b];
    } else {
      assert s[..|s|] == s;
      assert Trim(s) == s[|s|..|s|];
    }
  }

  /** Trimming twice is trimming once. */
  lemma TrimIdempotent(s: string)
    ensures Trim(Trim(s)) == Trim(s)
  {
    var m := Trim(s);
    if m != [] {
      TrimClean(m);
    }
  }

  /** A clean string is its own trim. */
  lemma TrimClean(s: string)
    requires Clean(s)
    ensures Trim(s) == s
  {
    assert FirstNonWs(s, 0) == 0;
    assert LastNonWs(s, |s|) == |s|;
    assert s[0..|s|] == s;
  }
}
