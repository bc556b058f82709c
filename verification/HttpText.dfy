/** Searching and trimming text as src/http_server.cpp does. */
module HttpText {

  const CRLF := "\r\n"
  const CRLF2 := "\r\n\r\n"

  /** `needle` occurs in `hay` at position `i`. */
  predicate At(hay: string, i: int, needle: string)
  {
    0 <= i && i + |needle| <= |hay| && hay[i..i + |needle|] == needle
  }

  /** The first occurrence at or after `from`, or -1. */
  function Find(hay: string, needle: string, from: nat): (r: int)
    ensures r >= 0 ==> from <= r && At(hay, r, needle) && forall i :: from <= i < r ==> !At(hay, i, needle)
    ensures r < 0 ==> r == -1 && forall i :: from <= i ==> !At(hay, i, needle)
    decreases |hay| - from
  {
    if from + |needle| > |hay| then -1
    else if At(hay, from, needle) then from
    else Find(hay, needle, from + 1)
  }

  /** An occurrence with none before it is the one that is found. */
  lemma FindIs(hay: string, needle: string, from: nat, k: nat)
    requires from <= k && At(hay, k, needle)
    requires forall i :: from <= i < k ==> !At(hay, i, needle)
    ensures Find(hay, needle, from) == k
  {
  }

  lemma FindNone(hay: string, needle: string, from: nat)
    requires forall i :: from <= i ==> !At(hay, i, needle)
    ensures Find(hay, needle, from) == -1
  {
  }

  lemma AtSuffix(hay: string, from: nat, i: nat, needle: string)
    requires from <= |hay|
    ensures At(hay[from..], i, needle) <==> At(hay, from + i, needle)
  {
    if from + i + |needle| <= |hay| {
      assert hay[from..][i..i + |needle|] == hay[from + i..from + i + |needle|];
    }
  }

  lemma FindSuffix(hay: string, needle: string, from: nat)
    requires from <= |hay|
    ensures var r := Find(hay[from..], needle, 0);
            Find(hay, needle, from) == if r < 0 then -1 else from + r
  {
    var r := Find(hay[from..], needle, 0);
    if r >= 0 {
      AtSuffix(hay, from, r, needle);
      forall i | from <= i < from + r ensures !At(hay, i, needle) {
        AtSuffix(hay, from, i - from, needle);
      }
      FindIs(hay, needle, from, from + r);
    } else {
      forall i | from <= i ensures !At(hay, i, needle) {
        AtSuffix(hay, from, i - from, needle);
      }
      FindNone(hay, needle, from);
    }
  }

  /** `find`: the loop over all positions. */
  method FindFirst(hay: string, needle: string, from: nat) returns (r: int)
    ensures r == Find(hay, needle, from)
  {
    var i := from;
    while i + |needle| <= |hay|
      invariant from <= i
      invariant Find(hay, needle, i) == Find(hay, needle, from)
      decreases |hay| - i
    {
      if hay[i..i + |needle|] == needle {
        return i;
      }
      i := i + 1;
    }
    r := -1;
  }

  /** `find_request_len`: the length of the first request, or -1. */
  function RequestLen(buf: string): (r: int)
    ensures r >= 0 ==> 4 <= r <= |buf|
  {
    var end := Find(buf, CRLF2, 0);
    if end < 0 then -1 else end + 4
  }

  // ---------------------------------------------------------------------------
  // Trimming

  /** `strchr` also finds the terminating zero of its list. */
  predicate IsSpace(c: char)
  {
    c == ' ' || c == '\r' || c == '\n' || c == '\t' || c == '\0'
  }

  lemma SpacesExactly(c: char)
    ensures IsSpace(c) <==> c in " \r\n\t\0"
  {
    var list := " \r\n\t\0";
    assert list[0] == ' ' && list[1] == '\r' && list[2] == '\n' && list[3] == '\t' && list[4] == '\0';
  }

  function TrimLeft(s: string): (r: string)
  {
    if s != [] && IsSpace(s[0]) then TrimLeft(s[1..]) else s
  }

  function TrimRight(s: string): (r: string)
  {
    if s != [] && IsSpace(s[|s| - 1]) then TrimRight(s[..|s| - 1]) else s
  }

  function Trim(s: string): (r: string)
  {
    TrimRight(TrimLeft(s))
  }

  lemma DropFirst(s: string, i: nat)
    requires i < |s|
    ensures s[i..][1..] == s[i + 1..] && s[i..][0] == s[i]
  {
  }

  lemma DropLast(s: string, i: nat, j: nat)
    requires i < j <= |s|
    ensures s[i..j][..j - i - 1] == s[i..j - 1] && s[i..j][j - i - 1] == s[j - 1]
  {
  }

  method TrimText(s: string) returns (r: string)
    ensures r == Trim(s)
  {
    if s == [] { return s; }
    var start, end := 0, |s|;
    assert s[0..] == s;
    while start < end && IsSpace(s[start])
      invariant 0 <= start <= end
      invariant TrimLeft(s[start..]) == TrimLeft(s)
    {
      DropFirst(s, start);
      start := start + 1;
    }
    assert s[start..end] == s[start..];
    while end > start && IsSpace(s[end - 1])
      invariant start <= end <= |s|
      invariant TrimRight(s[start..end]) == Trim(s)
    {
      DropLast(s, start, end);
      end := end - 1;
    }
    r := s[start..end];
  }

  /** Nothing to trim at either end. */
  predicate Trimmed(s: string)
  {
    s == [] || (!IsSpace(s[0]) && !IsSpace(s[|s| - 1]))
  }

  lemma {:induction false} TrimLeftSlice(s: string) returns (a: nat)
    ensures a <= |s| && TrimLeft(s) == s[a..]
    ensures TrimLeft(s) == [] || !IsSpace(TrimLeft(s)[0])
    ensures forall i :: 0 <= i < a ==> IsSpace(s[i])
  {
    if s != [] && IsSpace(s[0]) {
      var b := TrimLeftSlice(s[1..]);
      a := b + 1;
      forall i | 0 <= i < a ensures IsSpace(s[i]) {
        if i > 0 { assert s[1..][i - 1] == s[i]; }
      }
    } else {
      a := 0;
    }
  }

  lemma {:induction false} TrimRightSlice(s: string) returns (b: nat)
    ensures b <= |s| && TrimRight(s) == s[..b]
    ensures TrimRight(s) == [] || !IsSpace(s[b - 1])
    ensures forall i :: b <= i < |s| ==> IsSpace(s[i])
  {
    if s != [] && IsSpace(s[|s| - 1]) {
      b := TrimRightSlice(s[..|s| - 1]);
    } else {
      b := |s|;
    }
  }

  /** Trimming removes exactly the white space at both ends. */
  lemma TrimSlice(s: string) returns (a: nat, b: nat)
    ensures a <= b <= |s| && Trim(s) == s[a..b] && Trimmed(Trim(s))
    ensures forall i :: 0 <= i < a || b <= i < |s| ==> IsSpace(s[i])
  {
    a := TrimLeftSlice(s);
    var t := s[a..];
    var c := TrimRightSlice(t);
    b := a + c;
    assert t[..c] == s[a..b];
    if c > 0 {
      assert Trim(s)[0] == TrimLeft(s)[0];
      assert Trim(s)[c - 1] == t[c - 1];
    }
    forall i | b <= i < |s| ensures IsSpace(s[i]) {
      assert t[i - a] == s[i];
    }
  }

  lemma TrimTrimmed(s: string)
    requires Trimmed(s)
    ensures Trim(s) == s
  {
  }

  lemma {:induction false} TrimLeading(w: string, s: string)
    requires forall i :: 0 <= i < |w| ==> IsSpace(w[i])
    ensures Trim(w + s) == Trim(s)
  {
    if w == [] {
      assert w + s == s;
    } else {
      assert (w + s)[1..] == w[1..] + s;
      TrimLeading(w[1..], s);
    }
  }

  // ---------------------------------------------------------------------------
  // Lower case

  function LowerChar(c: char): (r: char)
  {
    if 'A' <= c <= 'Z' then c - 'A' + 'a' else c
  }

  function Lower(s: string): (r: string)
    ensures |r| == |s|
    ensures forall i :: 0 <= i < |s| ==> r[i] == LowerChar(s[i])
  {
    if s == [] then [] else [LowerChar(s[0])] + Lower(s[1..])
  }

  lemma LowerTwice(s: string)
    ensures Lower(Lower(s)) == Lower(s)
  {
  }

  method LowerCase(s: string) returns (r: string)
    ensures r == Lower(s)
  {
    r := [];
    for i := 0 to |s|
      invariant r == Lower(s)[..i]
    {
      r := r + [LowerChar(s[i])];
    }
  }

  // ---------------------------------------------------------------------------
  // Non-space characters

  function NonSpace(s: string): (r: nat)
  {
    if s == [] then 0 else (if IsSpace(s[0]) then 0 else 1) + NonSpace(s[1..])
  }

  lemma {:induction false} NonSpaceConcat(a: string, b: string)
    ensures NonSpace(a + b) == NonSpace(a) + NonSpace(b)
  {
    if a == [] {
      assert a + b == b;
    } else {
      assert (a + b)[1..] == a[1..] + b;
      NonSpaceConcat(a[1..], b);
    }
  }

  lemma {:induction false} NonSpaceBlank(s: string)
    requires forall i :: 0 <= i < |s| ==> IsSpace(s[i])
    ensures NonSpace(s) == 0
  {
    if s != [] { NonSpaceBlank(s[1..]); }
  }

  lemma {:induction false} NonSpaceHas(s: string, i: nat)
    requires i < |s| && !IsSpace(s[i])
    ensures NonSpace(s) > 0
  {
    if i > 0 { NonSpaceHas(s[1..], i - 1); }
  }

  lemma NonSpaceTrim(s: string)
    ensures NonSpace(Trim(s)) == NonSpace(s)
  {
    var a, b := TrimSlice(s);
    assert s == s[..a] + (s[a..b] + s[b..]);
    NonSpaceConcat(s[..a], s[a..b] + s[b..]);
    NonSpaceConcat(s[a..b], s[b..]);
    NonSpaceBlank(s[..a]);
    NonSpaceBlank(s[b..]);
  }
}
