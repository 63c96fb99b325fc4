/** Character classes and trimming as the string type of the program defines them. */
module Text {
  import opened Common

  /** The Unicode white space that trimming removes. */
  predicate IsSpace(c: char) {
    var n := c as int;
    9 <= n <= 13 || 28 <= n <= 32 || n == 0x85 || n == 0xA0 || n == 0x1680 || 0x2000 <= n <= 0x200A
    || n == 0x2028 || n == 0x2029 || n == 0x202F || n == 0x205F || n == 0x3000
  }

  /** White space, one by one. */
  lemma SpacesAre(c: char)
    ensures IsSpace(c) <==>
            c as int in {9, 10, 11, 12, 13, 28, 29, 30, 31, 32, 0x85, 0xA0, 0x1680, 0x2000, 0x2001, 0x2002, 0x2003,
                         0x2004, 0x2005, 0x2006, 0x2007, 0x2008, 0x2009, 0x200A, 0x2028, 0x2029, 0x202F, 0x205F, 0x3000}
  {
  }

  function TrimLeft(s: string): string {
    if s != "" && IsSpace(s[0]) then TrimLeft(s[1..]) else s
  }

  function TrimRight(s: string): string {
    if s != "" && IsSpace(s[|s| - 1]) then TrimRight(s[..|s| - 1]) else s
  }

  function Trim(s: string): string {
    TrimRight(TrimLeft(s))
  }

  /** Trimmed text neither begins nor ends with white space. */
  predicate IsTrimmed(s: string) {
    s != "" ==> !IsSpace(s[0]) && !IsSpace(s[|s| - 1])
  }

  lemma {:induction false} TrimLeftIsSuffix(s: string)
    ensures var t := TrimLeft(s); (t != "" ==> !IsSpace(t[0])) && |t| <= |s| && t == s[|s| - |t|..]
  {
    if s != "" && IsSpace(s[0]) {
      TrimLeftIsSuffix(s[1..]);
    }
  }

  lemma {:induction false} TrimRightIsPrefix(s: string)
    ensures var t := TrimRight(s); (t != "" ==> !IsSpace(t[|t| - 1])) && t <= s
  {
    if s != "" && IsSpace(s[|s| - 1]) {
      TrimRightIsPrefix(s[..|s| - 1]);
    }
  }

  lemma TrimIsTrimmed(s: string)
    ensures IsTrimmed(Trim(s))
  {
    TrimLeftIsSuffix(s);
    TrimRightIsPrefix(TrimLeft(s));
  }

  predicate AllSpace(s: string) {
    forall k :: 0 <= k < |s| ==> IsSpace(s[k])
  }

  lemma {:induction false} TrimLeftDrops(l: string, t: string)
    requires AllSpace(l) && (t != "" ==> !IsSpace(t[0]))
    ensures TrimLeft(l + t) == t
  {
    if l == "" {
      assert l + t == t;
    } else {
      assert (l + t)[1..] == l[1..] + t;
      TrimLeftDrops(l[1..], t);
    }
  }

  lemma {:induction false} TrimRightDrops(t: string, r: string)
    requires AllSpace(r) && (t != "" ==> !IsSpace(t[|t| - 1]))
    ensures TrimRight(t + r) == t
  {
    if r == "" {
      assert t + r == t;
    } else {
      assert (t + r)[..|t + r| - 1] == t + r[..|r| - 1];
      TrimRightDrops(t, r[..|r| - 1]);
    }
  }

  /** Trimming takes off the white space around a text and nothing else. */
  lemma TrimDropsSpaceAround(l: string, t: string, r: string)
    requires AllSpace(l) && AllSpace(r) && IsTrimmed(t)
    ensures Trim(l + t + r) == t
  {
    if t == "" {
      assert l + t + r == l + r + "";
      TrimLeftDrops(l + r, "");
    } else {
      assert l + t + r == l + (t + r);
      assert (t + r)[0] == t[0];
      TrimLeftDrops(l, t + r);
      TrimRightDrops(t, r);
    }
  }

  predicate OccursAt(p: string, s: string, i: int) {
    0 <= i <= i + |p| <= |s| && s[i..i + |p|] == p
  }

  predicate Occurs(p: string, s: string) {
    exists i :: 0 <= i <= |s| && OccursAt(p, s, i)
  }

  predicate IsFirstFrom(p: string, s: string, from: nat, i: nat) {
    from <= i && OccursAt(p, s, i) && forall k :: from <= k < i ==> !OccursAt(p, s, k)
  }

  lemma {:induction false} SomeOccurrenceIsFirst(p: string, s: string, from: nat, i: nat)
    requires from <= i && OccursAt(p, s, i)
    ensures exists j :: from <= j <= |s| && IsFirstFrom(p, s, from, j)
    decreases i
  {
    if k :| from <= k < i && OccursAt(p, s, k) {
      SomeOccurrenceIsFirst(p, s, from, k);
    } else {
      assert IsFirstFrom(p, s, from, i);
    }
  }

  /** The first occurrence of `p` in `s` at position `from` or later. */
  function Find(p: string, s: string, from: nat): (r: Option<nat>)
    ensures r.Some? ==> IsFirstFrom(p, s, from, r.value)
    ensures r.None? ==> forall i :: from <= i ==> !OccursAt(p, s, i)
  {
    if exists i :: from <= i <= |s| && IsFirstFrom(p, s, from, i) then
      var i :| from <= i <= |s| && IsFirstFrom(p, s, from, i);
      Some(i)
    else
      assert forall i :: from <= i && OccursAt(p, s, i) ==> false by {
        forall i | from <= i && OccursAt(p, s, i)
          ensures false
        {
          SomeOccurrenceIsFirst(p, s, from, i);
        }
      }
      None
  }

  lemma Mismatch(p: string, s: string, i: nat, m: nat)
    requires m < |p| && (i + m < |s| ==> s[i + m] != p[m])
    ensures !OccursAt(p, s, i)
  {
    if i + |p| <= |s| {
      assert s[i..i + |p|][m] == s[i + m];
    }
  }

  /** Only the first character of `p` is `c`. */
  predicate StartsOnlyWith(p: string, c: char) {
    p != "" && p[0] == c && forall k :: 0 < k < |p| ==> p[k] != c
  }

  /** An occurrence that begins in `x` lies in `x` when `c` comes next. */
  lemma NoStraddling(p: string, c: char, x: string, z: string, i: nat)
    requires StartsOnlyWith(p, c) && z != "" && z[0] == c && i < |x|
    ensures OccursAt(p, x + z, i) <==> OccursAt(p, x, i)
  {
    if i + |p| <= |x| {
      assert (x + z)[i..i + |p|] == x[i..i + |p|];
    } else {
      assert (x + z)[|x|] == c;
      Mismatch(p, x + z, i, |x| - i);
    }
  }

  lemma FirstFoundAt(p: string, c: char, x: string, z: string)
    requires StartsOnlyWith(p, c) && !Occurs(p, x)
    ensures Find(p, x + p + z, 0) == Some(|x|)
  {
    var s := x + p + z;
    assert s == x + (p + z);
    assert OccursAt(p, s, |x|);
    forall i | 0 <= i < |x|
      ensures !OccursAt(p, s, i)
    {
      NoStraddling(p, c, x, p + z, i);
    }
  }
}
