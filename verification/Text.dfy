/** White space, words and trimming. */
module Text {
  /** Unicode white space. */
  predicate IsWs(c: char) {
    var n := c as int;
    9 <= n <= 13 || n == 0x20 || n == 0x85 || n == 0xA0 || n == 0x1680 || 0x2000 <= n <= 0x200A
    || n == 0x2028 || n == 0x2029 || n == 0x202F || n == 0x205F || n == 0x3000
  }

  predicate IsWord(c: char) {
    'a' <= c <= 'z' || 'A' <= c <= 'Z' || '0' <= c <= '9' || c == '_'
  }

  predicate AllWord(s: string) {
    forall k :: 0 <= k < |s| ==> IsWord(s[k])
  }

  predicate AllWs(s: string) {
    forall k :: 0 <= k < |s| ==> IsWs(s[k])
  }

  function TrimStart(s: string): (r: string)
    ensures |r| <= |s|
    ensures r != "" ==> !IsWs(r[0])
    ensures s == s[..|s| - |r|] + r && AllWs(s[..|s| - |r|])
  {
    if s != "" && IsWs(s[0]) then
      var r := TrimStart(s[1..]);
      assert s[..|s| - |r|] == [s[0]] + s[1..][..|s[1..]| - |r|];
      r
    else s
  }

  function TrimEnd(s: string): (r: string)
    ensures r <= s && AllWs(s[|r|..])
    ensures r != "" ==> !IsWs(r[|r| - 1])
  {
    if s != "" && IsWs(s[|s| - 1]) then
      var r := TrimEnd(s[..|s| - 1]);
      assert forall k :: 0 <= k < |s[|r|..]| - 1 ==> s[|r|..][k] == s[..|s| - 1][|r|..][k];
      r
    else s
  }

  function Trim(s: string): string {
    TrimEnd(TrimStart(s))
  }

  lemma {:induction false} TrimAround(a: string, t: string, b: string)
    requires AllWs(a) && AllWs(b)
    requires t != "" && !IsWs(t[0]) && !IsWs(t[|t| - 1])
    ensures Trim(a + t + b) == t
  {
    TrimLeading(a, t + b);
    assert a + t + b == a + (t + b);
    TrimTrailing(t, b);
  }

  lemma {:induction false} TrimLeading(a: string, t: string)
    requires AllWs(a)
    requires t != "" && !IsWs(t[0])
    ensures TrimStart(a + t) == t
  {
    if a == "" {
      assert a + t == t;
    } else {
      assert IsWs(a[0]) && AllWs(a[1..]);
      hide IsWs, AllWs;
      TrimLeading(a[1..], t);
      assert (a + t)[1..] == a[1..] + t;
    }
  }

  lemma {:induction false} TrimTrailing(t: string, b: string)
    requires AllWs(b)
    requires t != "" && !IsWs(t[|t| - 1])
    ensures TrimEnd(t + b) == t
  {
    if b == "" {
      assert t + b == t;
    } else {
      TrimTrailing(t, b[..|b| - 1]);
      assert (t + b)[..|t + b| - 1] == t + b[..|b| - 1];
    }
  }
}
