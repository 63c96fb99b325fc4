/** Splitting a from/to value into addresses at the separators outside quotes and angle brackets. */
module Contacts {
  import opened Common
  import opened Text

  /** Where a scan stands: how many angle brackets are open, and whether a quote is. */
  datatype Scan = Scan(depth: nat, quoted: bool)

  const TOP := Scan(0, false)

  predicate IsSeparator(c: char) {
    c == ',' || c == ';'
  }

  predicate SplitsAt(c: char, at: Scan) {
    IsSeparator(c) && at == TOP
  }

  /** Brackets count inside quotes too, quotes toggle inside brackets, and a stray `>` changes nothing. */
  function Step(c: char, at: Scan): Scan {
    if c == '"' then at.(quoted := !at.quoted)
    else if c == '<' then at.(depth := at.depth + 1)
    else if c == '>' then at.(depth := Max(0, at.depth - 1))
    else at
  }

  function ScanOver(s: string, at: Scan): Scan {
    if s == "" then at else ScanOver(s[1..], Step(s[0], at))
  }

  /** The pieces of `s` between the separators at which it splits, from scan state `at` on. */
  function Segments(s: string, at: Scan): (r: seq<string>)
    ensures r != []
  {
    if s == "" then [""]
    else if SplitsAt(s[0], at) then [""] + Segments(s[1..], at)
    else
      var r := Segments(s[1..], Step(s[0], at));
      [[s[0]] + r[0]] + r[1..]
  }

  /** The trimmed pieces that are not blank. */
  function Kept(segments: seq<string>): seq<string> {
    if segments == [] then []
    else (if Trim(segments[0]) == "" then [] else [Trim(segments[0])]) + Kept(segments[1..])
  }

  predicate HasSeparator(s: string) {
    exists i :: 0 <= i < |s| && IsSeparator(s[i])
  }

  /** A value without any separator is one address, taken as it stands. */
  function Split(s: string): seq<string> {
    if !HasSeparator(s) then (if Trim(s) == "" then [] else [s]) else Kept(Segments(s, TOP))
  }

  lemma {:induction false} KeptAppend(a: seq<string>, b: seq<string>)
    ensures Kept(a + b) == Kept(a) + Kept(b)
  {
    if a == [] {
      assert a + b == b;
    } else {
      assert (a + b)[1..] == a[1..] + b;
      KeptAppend(a[1..], b);
    }
  }

  /** The pieces when `buf` has been collected already: it goes in front of the first one. */
  function Resumed(out: seq<string>, buf: string, rest: string, at: Scan): seq<string> {
    var r := Segments(rest, at);
    out + [buf + r[0]] + r[1..]
  }

  method SplitAddresses(s: string) returns (parts: seq<string>)
    ensures parts == Split(s)
  {
    if !HasSeparator(s) {
      return if Trim(s) == "" then [] else [s];
    }
    var out: seq<string>, buf := [], "";
    var depth, inq := 0, false;
    assert s[0..] == s;
    ResumedFresh(s, TOP);
    for i := 0 to |s|
      invariant depth >= 0
      invariant Resumed(out, buf, s[i..], Scan(depth, inq)) == Segments(s, TOP)
    {
      ResumeNext(out, buf, s[i..], Scan(depth, inq));
      assert s[i..][1..] == s[i + 1..];
      var ch := s[i];
      if ch == '"' {
        inq := !inq;
        buf := buf + [ch];
      } else if ch == '<' {
        depth := depth + 1;
        buf := buf + [ch];
      } else if ch == '>' {
        depth := Max(0, depth - 1);
        buf := buf + [ch];
      } else if (ch == ',' || ch == ';') && depth == 0 && !inq {
        out := out + [buf];
        buf := "";
      } else {
        buf := buf + [ch];
      }
    }
    ResumedAtEnd(out, buf, Scan(depth, inq));
    assert s[|s|..] == "";
    out := out + [buf];
    parts := KeepParts(out);
  }

  method KeepParts(out: seq<string>) returns (parts: seq<string>)
    ensures parts == Kept(out)
  {
    parts := [];
    for i := 0 to |out|
      invariant parts == Kept(out[..i])
    {
      assert out[..i + 1] == out[..i] + [out[i]];
      KeptAppend(out[..i], [out[i]]);
      if Trim(out[i]) != "" {
        parts := parts + [Trim(out[i])];
      }
    }
    assert out[..|out|] == out;
  }

  lemma ResumedFresh(s: string, at: Scan)
    ensures Resumed([], "", s, at) == Segments(s, at)
  {
    var r := Segments(s, at);
    assert "" + r[0] == r[0] && [r[0]] + r[1..] == r;
  }

  lemma ResumedAtEnd(out: seq<string>, buf: string, at: Scan)
    ensures Resumed(out, buf, "", at) == out + [buf]
  {
    assert buf + "" == buf;
  }

  lemma ResumeNext(out: seq<string>, buf: string, rest: string, at: Scan)
    requires rest != ""
    ensures Resumed(out, buf, rest, at) ==
            if SplitsAt(rest[0], at) then Resumed(out + [buf], "", rest[1..], at)
            else Resumed(out, buf + [rest[0]], rest[1..], Step(rest[0], at))
  {
    var r := Segments(rest[1..], if SplitsAt(rest[0], at) then at else Step(rest[0], at));
    if SplitsAt(rest[0], at) {
      assert "" + r[0] == r[0] && [r[0]] + r[1..] == r && buf + "" == buf;
    } else {
      assert buf + ([rest[0]] + r[0]) == (buf + [rest[0]]) + r[0];
    }
  }

  /* ---------- the pieces ---------- */

  /** Scanned from the top, `p` splits nowhere. */
  predicate IsWhole(p: string) {
    Segments(p, TOP) == [p]
  }

  /** What is left of `s` without the separators at which it splits. */
  function WithoutSeparators(s: string, at: Scan): string {
    if s == "" then ""
    else if SplitsAt(s[0], at) then WithoutSeparators(s[1..], at)
    else [s[0]] + WithoutSeparators(s[1..], Step(s[0], at))
  }

  function Concat(parts: seq<string>): string {
    if parts == [] then "" else parts[0] + Concat(parts[1..])
  }

  function Join(parts: seq<string>): string {
    if parts == [] then "" else if |parts| == 1 then parts[0] else parts[0] + "," + Join(parts[1..])
  }

  lemma {:induction false} ScanAppend(a: string, b: string, at: Scan)
    ensures ScanOver(a + b, at) == ScanOver(b, ScanOver(a, at))
  {
    if a == "" {
      assert a + b == b;
    } else {
      assert (a + b)[1..] == a[1..] + b;
      ScanAppend(a[1..], b, Step(a[0], at));
    }
  }

  /** No split inside `a`: the scan of `a + b` carries `a` in front of the first piece. */
  lemma {:induction false} SegmentsAppend(a: string, b: string, at: Scan)
    requires Segments(a, at) == [a]
    ensures Segments(a + b, at) == [a + Segments(b, ScanOver(a, at))[0]] + Segments(b, ScanOver(a, at))[1..]
  {
    if a == "" {
      assert a + b == b;
      var r := Segments(b, at);
      assert "" + r[0] == r[0] && [r[0]] + r[1..] == r;
    } else {
      assert (a + b)[1..] == a[1..] + b;
      assert !SplitsAt(a[0], at);
      var r := Segments(a[1..], Step(a[0], at));
      assert Segments(a, at)[0] == [a[0]] + r[0] && |r| == 1;
      assert ([a[0]] + r[0])[1..] == r[0];
      SegmentsAppend(a[1..], b, Step(a[0], at));
      var q := Segments(b, ScanOver(a, at));
      assert [a[0]] + (a[1..] + q[0]) == a + q[0];
    }
  }

  lemma {:induction false} PrefixIsWhole(a: string, b: string, at: Scan)
    requires Segments(a + b, at) == [a + b]
    ensures Segments(a, at) == [a]
  {
    if a != "" {
      assert (a + b)[1..] == a[1..] + b;
      var r := Segments(a[1..] + b, Step(a[0], at));
      assert Segments(a + b, at)[0] == [a[0]] + r[0] && |r| == 1;
      assert ([a[0]] + r[0])[1..] == r[0];
      PrefixIsWhole(a[1..], b, Step(a[0], at));
      assert [a[0]] + a[1..] == a;
    }
  }

  lemma {:induction false} TrimLeftKeepsWhole(p: string)
    requires IsWhole(p)
    ensures IsWhole(TrimLeft(p)) && ScanOver(TrimLeft(p), TOP) == ScanOver(p, TOP)
  {
    if p != "" && IsSpace(p[0]) {
      var r := Segments(p[1..], TOP);
      assert Segments(p, TOP)[0] == [p[0]] + r[0] && |r| == 1;
      assert ([p[0]] + r[0])[1..] == r[0];
      TrimLeftKeepsWhole(p[1..]);
    }
  }

  lemma {:induction false} TrimRightKeepsWhole(p: string)
    requires IsWhole(p)
    ensures IsWhole(TrimRight(p)) && ScanOver(TrimRight(p), TOP) == ScanOver(p, TOP)
  {
    if p != "" && IsSpace(p[|p| - 1]) {
      var q, c := p[..|p| - 1], p[|p| - 1];
      assert p == q + [c];
      PrefixIsWhole(q, [c], TOP);
      ScanAppend(q, [c], TOP);
      assert [c][1..] == "";
      assert ScanOver([c], ScanOver(q, TOP)) == ScanOver(q, TOP);
      TrimRightKeepsWhole(q);
    }
  }

  lemma TrimKeepsWhole(p: string)
    requires IsWhole(p)
    ensures IsWhole(Trim(p)) && ScanOver(Trim(p), TOP) == ScanOver(p, TOP)
  {
    TrimLeftKeepsWhole(p);
    TrimRightKeepsWhole(TrimLeft(p));
  }

  /** Pieces as a scan from `at` yields them: no splits inside, and each but the last ends at the top. */
  predicate ArePieces(r: seq<string>, at: Scan) {
    r != [] ==>
      && Segments(r[0], at) == [r[0]]
      && (|r| > 1 ==> ScanOver(r[0], at) == TOP && ArePieces(r[1..], TOP))
  }

  lemma {:induction false} SegmentsArePieces(s: string, at: Scan)
    ensures ArePieces(Segments(s, at), at)
  {
    if s != "" {
      if SplitsAt(s[0], at) {
        SegmentsArePieces(s[1..], at);
        assert ([""] + Segments(s[1..], at))[1..] == Segments(s[1..], at);
      } else {
        var next := Step(s[0], at);
        SegmentsArePieces(s[1..], next);
        PieceWithHead(s[0], Segments(s[1..], next), at);
      }
    }
  }

  lemma PieceWithHead(c: char, r: seq<string>, at: Scan)
    requires r != [] && ArePieces(r, Step(c, at)) && !SplitsAt(c, at)
    ensures ArePieces([[c] + r[0]] + r[1..], at)
  {
    var head := [c] + r[0];
    assert head[1..] == r[0];
    assert Segments(head, at) == [[c] + r[0]] + [r[0]][1..] == [head];
    assert ScanOver(head, at) == ScanOver(r[0], Step(c, at));
    assert ([head] + r[1..])[1..] == r[1..];
  }

  predicate AllTrimmed(r: seq<string>) {
    forall i :: 0 <= i < |r| ==> r[i] != "" && IsTrimmed(r[i])
  }

  lemma PiecesFrom(t: string, r: seq<string>)
    requires IsWhole(t) && ArePieces(r, TOP) && (r != [] ==> ScanOver(t, TOP) == TOP)
    ensures ArePieces([t] + r, TOP)
  {
    assert ([t] + r)[1..] == r;
  }

  lemma {:induction false} KeptArePieces(r: seq<string>)
    requires ArePieces(r, TOP)
    ensures ArePieces(Kept(r), TOP) && AllTrimmed(Kept(r))
  {
    hide Trim, IsTrimmed, Segments;
    if r != [] {
      TrimKeepsWhole(r[0]);
      TrimIsTrimmed(r[0]);
      KeptArePieces(r[1..]);
      if Trim(r[0]) != "" {
        PiecesFrom(Trim(r[0]), Kept(r[1..]));
      } else {
        assert [] + Kept(r[1..]) == Kept(r[1..]);
      }
    }
  }

  lemma {:induction false} KeptTrimmed(r: seq<string>)
    requires AllTrimmed(r)
    ensures Kept(r) == r
  {
    if r != [] {
      assert r[0] != "" && IsTrimmed(r[0]);
      assert Trim(r[0]) == r[0];
      KeptTrimmed(r[1..]);
    }
  }

  lemma SegmentsAfterComma(s: string)
    ensures Segments("," + s, TOP) == [""] + Segments(s, TOP)
  {
    assert ("," + s)[1..] == s;
  }

  lemma {:induction false} SegmentsOfJoin(r: seq<string>)
    requires r != [] && ArePieces(r, TOP)
    ensures Segments(Join(r), TOP) == r
  {
    if |r| == 1 {
      assert r == [r[0]];
    } else {
      var rest := "," + Join(r[1..]);
      SegmentsOfJoin(r[1..]);
      SegmentsAfterComma(Join(r[1..]));
      SegmentsAppend(r[0], rest, TOP);
      assert Join(r) == r[0] + rest && r[0] + "" == r[0];
      assert ([""] + r[1..])[1..] == r[1..];
    }
  }

  lemma SplitIsTrimmedPieces(s: string)
    requires HasSeparator(s)
    ensures ArePieces(Split(s), TOP) && AllTrimmed(Split(s))
  {
    SegmentsArePieces(s, TOP);
    KeptArePieces(Segments(s, TOP));
  }

  lemma SplitOfPieces(t: string, r: seq<string>)
    requires Segments(t, TOP) == r && AllTrimmed(r) && r != []
    ensures Split(t) == r
  {
    KeptTrimmed(r);
    if !HasSeparator(t) {
      NothingToSplit(t, TOP);
      assert r[0] == t;
    }
  }

  lemma {:induction false} NothingToSplit(t: string, at: Scan)
    requires !HasSeparator(t)
    ensures Segments(t, at) == [t] && WithoutSeparators(t, at) == t
  {
    if t != "" {
      assert !IsSeparator(t[0]);
      assert forall i :: 0 <= i < |t| - 1 ==> t[1..][i] == t[i + 1];
      NothingToSplit(t[1..], Step(t[0], at));
      assert [t[0]] + t[1..] == t;
    }
  }

  /** Splitting is a canonical form: joining the parts with commas and splitting again gives the same parts. */
  lemma SplitOfJoin(s: string)
    ensures Split(Join(Split(s))) == Split(s)
  {
    var parts := Split(s);
    if HasSeparator(s) {
      SplitIsTrimmedPieces(s);
      if parts != [] {
        SegmentsOfJoin(parts);
        SplitOfPieces(Join(parts), parts);
      }
    }
  }

  /** A part is a single address: split on its own it gives itself. */
  lemma PartIsAlone(s: string, k: nat)
    requires k < |Split(s)|
    ensures Split(Split(s)[k]) == [Split(s)[k]]
  {
    var parts := Split(s);
    if HasSeparator(s) {
      SplitIsTrimmedPieces(s);
      PieceIsWhole(parts, k);
      SplitOfPieces(parts[k], [parts[k]]);
    }
  }

  lemma {:induction false} PieceIsWhole(r: seq<string>, k: nat)
    requires ArePieces(r, TOP) && k < |r|
    ensures IsWhole(r[k])
  {
    if k > 0 {
      PieceIsWhole(r[1..], k - 1);
    }
  }

  /* ---------- nothing but white space and separators is lost ---------- */

  /** The characters that are not white space, in order. */
  function Solid(s: string): string {
    if s == "" then "" else (if IsSpace(s[0]) then "" else [s[0]]) + Solid(s[1..])
  }

  lemma {:induction false} SolidAppend(a: string, b: string)
    ensures Solid(a + b) == Solid(a) + Solid(b)
  {
    if a == "" {
      assert a + b == b;
    } else {
      assert (a + b)[1..] == a[1..] + b;
      SolidAppend(a[1..], b);
    }
  }

  lemma {:induction false} SolidTrimLeft(s: string)
    ensures Solid(TrimLeft(s)) == Solid(s)
  {
    if s != "" && IsSpace(s[0]) {
      SolidTrimLeft(s[1..]);
    }
  }

  lemma {:induction false} SolidTrimRight(s: string)
    ensures Solid(TrimRight(s)) == Solid(s)
  {
    if s != "" && IsSpace(s[|s| - 1]) {
      var q, c := s[..|s| - 1], s[|s| - 1];
      assert s == q + [c];
      SolidAppend(q, [c]);
      assert [c][1..] == "" && Solid([c]) == "";
      SolidTrimRight(q);
    }
  }

  lemma {:induction false} SolidKept(r: seq<string>)
    ensures Solid(Concat(Kept(r))) == Solid(Concat(r))
  {
    if r != [] {
      SolidKept(r[1..]);
      SolidTrimLeft(r[0]);
      SolidTrimRight(TrimLeft(r[0]));
      SolidAppend(r[0], Concat(r[1..]));
      SolidAppend(Trim(r[0]), Concat(Kept(r[1..])));
      if Trim(r[0]) != "" {
        assert ([Trim(r[0])] + Kept(r[1..]))[1..] == Kept(r[1..]);
      } else {
        assert [] + Kept(r[1..]) == Kept(r[1..]);
        assert Solid(r[0]) == "";
      }
    }
  }

  lemma {:induction false} ConcatSegments(s: string, at: Scan)
    ensures Concat(Segments(s, at)) == WithoutSeparators(s, at)
  {
    if s != "" {
      if SplitsAt(s[0], at) {
        ConcatSegments(s[1..], at);
        assert ([""] + Segments(s[1..], at))[1..] == Segments(s[1..], at);
      } else {
        var r := Segments(s[1..], Step(s[0], at));
        ConcatSegments(s[1..], Step(s[0], at));
        assert ([[s[0]] + r[0]] + r[1..])[1..] == r[1..];
        assert ([s[0]] + r[0]) + Concat(r[1..]) == [s[0]] + (r[0] + Concat(r[1..]));
      }
    }
  }

  /** The parts hold every character of the value, in order, but for white space and the separators outside
      quotes and brackets. */
  lemma NothingElseIsLost(s: string)
    ensures Solid(Concat(Split(s))) == Solid(WithoutSeparators(s, TOP))
  {
    if HasSeparator(s) {
      SolidKept(Segments(s, TOP));
      ConcatSegments(s, TOP);
    } else {
      NothingToSplit(s, TOP);
      SolidTrimLeft(s);
      SolidTrimRight(TrimLeft(s));
      assert Solid(Trim(s)) == Solid(s);
      assert Concat([s]) == s + "" == s;
    }
  }

  /* ---------- quoted names ---------- */

  function Address(name: string, mailbox: string): string {
    ("\"" + name) + ("\" <" + mailbox) + ">"
  }

  lemma WholeAppend(a: string, b: string, at: Scan)
    requires Segments(a, at) == [a] && Segments(b, ScanOver(a, at)) == [b]
    ensures Segments(a + b, at) == [a + b] && ScanOver(a + b, at) == ScanOver(b, ScanOver(a, at))
  {
    SegmentsAppend(a, b, at);
    ScanAppend(a, b, at);
  }

  lemma {:induction false} QuotedIsWhole(name: string, at: Scan)
    requires at.quoted && '"' !in name
    ensures Segments(name, at) == [name] && ScanOver(name, at).quoted
  {
    if name != "" {
      QuotedIsWhole(name[1..], Step(name[0], at));
      assert [name[0]] + name[1..] == name;
    }
  }

  lemma {:induction false} BracketedIsWhole(mailbox: string, at: Scan)
    requires at.depth > 0 && '"' !in mailbox && '<' !in mailbox && '>' !in mailbox
    ensures Segments(mailbox, at) == [mailbox] && ScanOver(mailbox, at) == at
  {
    if mailbox != "" {
      BracketedIsWhole(mailbox[1..], at);
      assert [mailbox[0]] + mailbox[1..] == mailbox;
    }
  }

  /** How many brackets a quoted name leaves open. */
  function LeftOpen(name: string): nat {
    ScanOver(name, Scan(0, true)).depth
  }

  lemma OneCharacter(c: char, at: Scan)
    requires !SplitsAt(c, at)
    ensures Segments([c], at) == [[c]] && ScanOver([c], at) == Step(c, at)
  {
    assert [c][1..] == "";
    assert [c] + "" == [c];
  }

  lemma AddressIsWhole(name: string, mailbox: string)
    requires '"' !in name && '"' !in mailbox && '<' !in mailbox && '>' !in mailbox
    ensures IsWhole(Address(name, mailbox)) && ScanOver(Address(name, mailbox), TOP) == Scan(LeftOpen(name), false)
  {
    var front, back, d := "\"" + name, "\" <" + mailbox, LeftOpen(name);
    OneCharacter('"', TOP);
    QuotedIsWhole(name, Scan(0, true));
    WholeAppend("\"", name, TOP);
    OpenBracket(mailbox, d);
    WholeAppend(front, back, TOP);
    OneCharacter('>', Scan(d + 1, false));
    WholeAppend(front + back, ">", TOP);
  }

  lemma OpenBracket(mailbox: string, d: nat)
    requires '"' !in mailbox && '<' !in mailbox && '>' !in mailbox
    ensures Segments("\" <" + mailbox, Scan(d, true)) == ["\" <" + mailbox]
    ensures ScanOver("\" <" + mailbox, Scan(d, true)) == Scan(d + 1, false)
  {
    OneCharacter('"', Scan(d, true));
    OneCharacter(' ', Scan(d, false));
    OneCharacter('<', Scan(d, false));
    WholeAppend("\"", " ", Scan(d, true));
    assert "\"" + " " == "\" " && "\" " + "<" == "\" <";
    WholeAppend("\" ", "<", Scan(d, true));
    BracketedIsWhole(mailbox, Scan(d + 1, false));
    WholeAppend("\" <", mailbox, Scan(d, true));
  }

  lemma AddressIsTrimmed(name: string, mailbox: string)
    ensures Trim(Address(name, mailbox)) == Address(name, mailbox) && Address(name, mailbox) != ""
  {
    var a := Address(name, mailbox);
    assert a[0] == '"' && a[|a| - 1] == '>';
  }

  lemma {:induction false} TrimRightKeepsUpTo(s: string, n: nat)
    requires 0 < n <= |s| && !IsSpace(s[n - 1])
    ensures |TrimRight(s)| >= n
  {
    if n < |s| && IsSpace(s[|s| - 1]) {
      TrimRightKeepsUpTo(s[..|s| - 1], n);
    }
  }

  /** A list that starts with an address whose name leaves brackets open: its first piece goes on behind the comma. */
  lemma OpenAddressGoesOn(name: string, mailbox: string, rest: string)
    requires '"' !in name && '"' !in mailbox && '<' !in mailbox && '>' !in mailbox && LeftOpen(name) > 0
    ensures var first := Segments(Address(name, mailbox) + "," + rest, TOP)[0];
            |Trim(first)| > |Address(name, mailbox)|
  {
    var a, at, b := Address(name, mailbox), Scan(LeftOpen(name), false), "," + rest;
    AddressIsWhole(name, mailbox);
    assert a + "," + rest == a + b && b[1..] == rest;
    SegmentsAppend(a, b, TOP);
    var r := Segments(b, at);
    assert r[0][0] == ',';
    var first := a + r[0];
    assert first[0] == '"' && first[|a|] == ',';
    TrimRightKeepsUpTo(first, |a| + 1);
  }

  lemma ClosedAddressIsCut(name: string, mailbox: string, rest: string)
    requires '"' !in name && '"' !in mailbox && '<' !in mailbox && '>' !in mailbox && LeftOpen(name) == 0
    ensures Segments(Address(name, mailbox) + "," + rest, TOP) == [Address(name, mailbox)] + Segments(rest, TOP)
  {
    var a, b := Address(name, mailbox), "," + rest;
    AddressIsWhole(name, mailbox);
    assert a + "," + rest == a + b && b[1..] == rest;
    SegmentsAppend(a, b, TOP);
    var r := Segments(b, TOP);
    assert r[1..] == Segments(rest, TOP) && a + r[0] == a;
  }

  /** An address with a quoted name, whatever separators name and mailbox contain, is taken out of a list in one
      piece if and only if its name leaves no bracket open: brackets count inside quotes as well. The other parts are
      then those of the rest. */
  lemma AddressIsSplitOffIff(name: string, mailbox: string, rest: string)
    requires '"' !in name && '"' !in mailbox && '<' !in mailbox && '>' !in mailbox
    ensures var parts := Split(Address(name, mailbox) + "," + rest);
            && parts != []
            && (parts[0] == Address(name, mailbox) <==> LeftOpen(name) == 0)
            && (LeftOpen(name) == 0 ==> parts == [Address(name, mailbox)] + Kept(Segments(rest, TOP)))
  {
    var a := Address(name, mailbox);
    var s := a + "," + rest;
    assert IsSeparator(s[|a|]) && HasSeparator(s);
    AddressIsTrimmed(name, mailbox);
    hide Address, LeftOpen, Trim;
    if LeftOpen(name) == 0 {
      ClosedAddressIsCut(name, mailbox, rest);
      assert ([a] + Segments(rest, TOP))[1..] == Segments(rest, TOP);
    } else {
      OpenAddressGoesOn(name, mailbox, rest);
    }
  }

  lemma WholeSplitsToItself(s: string)
    requires IsWhole(s) && HasSeparator(s) && Trim(s) == s && s != ""
    ensures Split(s) == [s]
  {
    TrimIsTrimmed(s);
    SplitOfPieces(s, [s]);
  }

  /** The failing case: behind an address with a bracket in its quoted name, a list without a closing bracket, such
      as one of bare addresses, comes out as one part. */
  lemma BracketInQuotedNameKeepsTheList(mailbox: string, rest: string)
    requires '"' !in mailbox && '<' !in mailbox && '>' !in mailbox
    requires '>' !in rest && rest != "" && !IsSpace(rest[|rest| - 1])
    ensures var s := Address("<", mailbox) + "," + rest; Split(s) == [s]
  {
    var a, b, at := Address("<", mailbox), "," + rest, Scan(1, false);
    var s := a + "," + rest;
    OneCharacter('<', Scan(0, true));
    AddressIsWhole("<", mailbox);
    AddressIsTrimmed("<", mailbox);
    assert a[0] == '"';
    hide Address;
    assert s == a + b;
    NeverSplitsInside(b, at);
    WholeAppend(a, b, TOP);
    assert s[0] == '"' && s[|s| - 1] == rest[|rest| - 1];
    assert IsSeparator(s[|a|]);
    WholeSplitsToItself(s);
  }

  lemma {:induction false} NeverSplitsInside(b: string, at: Scan)
    requires at.depth > 0 && '>' !in b
    ensures Segments(b, at) == [b]
  {
    if b != "" {
      NeverSplitsInside(b[1..], Step(b[0], at));
      assert [b[0]] + b[1..] == b;
    }
  }

  /* ---------- lists of addresses ---------- */

  /** An entry of a list: a bare address, or one with a quoted name. */
  datatype Entry = Bare(text: string) | Named(name: string, mailbox: string)

  function Written(e: Entry): string {
    match e
    case Bare(text) => text
    case Named(name, mailbox) => Address(name, mailbox)
  }

  /** The character means nothing to a scan. */
  predicate IsOrdinary(c: char) {
    c !in {'"', '<', '>', ',', ';'}
  }

  predicate AllOrdinary(s: string) {
    forall k :: 0 <= k < |s| ==> IsOrdinary(s[k])
  }

  /** A bare entry is not blank and has no quotes, brackets or separators; the name of the others may have separators,
      and so may the mailbox. */
  predicate IsEntry(e: Entry) {
    match e
    case Bare(text) => AllOrdinary(text) && text != "" && IsTrimmed(text)
    case Named(name, mailbox) =>
      '"' !in name && '<' !in name && '"' !in mailbox && '<' !in mailbox && '>' !in mailbox
  }

  /** What stands between two entries: a comma or a semicolon, with white space around it. */
  datatype Glue = Glue(before: string, mark: char, after: string)

  predicate IsGlue(g: Glue) {
    AllSpace(g.before) && AllSpace(g.after) && g.mark in {',', ';'}
  }

  function Listed(es: seq<Entry>, glue: seq<Glue>): string
    requires |es| == |glue| + 1
  {
    if glue == [] then Written(es[0])
    else Written(es[0]) + glue[0].before + [glue[0].mark] + (glue[0].after + Listed(es[1..], glue[1..]))
  }

  function Texts(es: seq<Entry>): seq<string> {
    if es == [] then [] else [Written(es[0])] + Texts(es[1..])
  }

  lemma {:induction false} OrdinaryIsWhole(s: string)
    requires AllOrdinary(s)
    ensures IsWhole(s) && ScanOver(s, TOP) == TOP
  {
    if s != "" {
      assert IsOrdinary(s[0]);
      assert forall k :: 0 <= k < |s| - 1 ==> s[1..][k] == s[k + 1];
      OrdinaryIsWhole(s[1..]);
      assert [s[0]] + s[1..] == s;
    }
  }

  lemma SpaceIsOrdinary(s: string)
    requires AllSpace(s)
    ensures AllOrdinary(s)
  {
    forall k | 0 <= k < |s|
      ensures IsOrdinary(s[k])
    {
      assert IsSpace(s[k]);
    }
  }

  lemma {:induction false} NothingLeftOpen(name: string)
    requires '"' !in name && '<' !in name
    ensures LeftOpen(name) == 0
  {
    if name != "" {
      NothingLeftOpen(name[1..]);
    }
  }

  lemma EntryIsWhole(e: Entry)
    requires IsEntry(e)
    ensures IsWhole(Written(e)) && ScanOver(Written(e), TOP) == TOP && Written(e) != "" && IsTrimmed(Written(e))
  {
    match e
    case Bare(text) => OrdinaryIsWhole(text);
    case Named(name, mailbox) =>
      AddressIsWhole(name, mailbox);
      NothingLeftOpen(name);
      AddressIsTrimmed(name, mailbox);
      TrimIsTrimmed(Address(name, mailbox));
  }

  /** An entry with white space around it is a piece, and trimming gives the entry. */
  lemma PaddedEntry(l: string, e: Entry, r: string)
    requires AllSpace(l) && AllSpace(r) && IsEntry(e)
    ensures IsWhole(l + Written(e) + r) && ScanOver(l + Written(e) + r, TOP) == TOP
    ensures Trim(l + Written(e) + r) == Written(e) && Written(e) != ""
  {
    EntryIsWhole(e);
    SpaceIsOrdinary(l);
    SpaceIsOrdinary(r);
    OrdinaryIsWhole(l);
    OrdinaryIsWhole(r);
    hide Segments, ScanOver, AllOrdinary, Written;
    WholeAppend(l, Written(e), TOP);
    WholeAppend(l + Written(e), r, TOP);
    TrimDropsSpaceAround(l, Written(e), r);
  }

  lemma CutAtMark(a: string, c: char, rest: string)
    requires IsWhole(a) && ScanOver(a, TOP) == TOP && c in {',', ';'}
    ensures Segments(a + [c] + rest, TOP) == [a] + Segments(rest, TOP)
  {
    var b := [c] + rest;
    assert a + [c] + rest == a + b && b[1..] == rest;
    SegmentsAppend(a, b, TOP);
    var r := Segments(b, TOP);
    assert r[1..] == Segments(rest, TOP) && a + r[0] == a;
  }

  lemma {:induction false} ListedIsCut(l: string, es: seq<Entry>, glue: seq<Glue>)
    requires |es| == |glue| + 1 && AllSpace(l)
    requires (forall e :: e in es ==> IsEntry(e)) && (forall g :: g in glue ==> IsGlue(g))
    ensures Kept(Segments(l + Listed(es, glue), TOP)) == Texts(es)
    decreases |es|
  {
    hide Segments, ScanOver, Written, Trim, AllSpace;
    if glue == [] {
      assert es == [es[0]] && l + Written(es[0]) + "" == l + Written(es[0]);
      NoSpace();
      PaddedEntry(l, es[0], "");
      assert Texts(es[1..]) == [];
      assert Kept([l + Written(es[0])][1..]) == [];
    } else {
      var g := glue[0];
      assert g in glue && es[0] in es;
      var a := l + Written(es[0]) + g.before;
      PaddedEntry(l, es[0], g.before);
      var rest := g.after + Listed(es[1..], glue[1..]);
      assert l + Listed(es, glue) == a + [g.mark] + rest;
      CutAtMark(a, g.mark, rest);
      ListedIsCut(g.after, es[1..], glue[1..]);
      assert ([a] + Segments(rest, TOP))[1..] == Segments(rest, TOP);
    }
  }

  lemma NoSpace()
    ensures AllSpace("")
  {
  }

  lemma MarkIsThere(es: seq<Entry>, glue: seq<Glue>)
    requires |es| == |glue| + 1 && glue != [] && IsGlue(glue[0])
    ensures HasSeparator(Listed(es, glue))
  {
    hide Written;
    var a := Written(es[0]) + glue[0].before;
    assert Listed(es, glue)[|a|] == glue[0].mark;
  }

  /** A list of addresses comes apart into exactly its entries, in order, whether commas or semicolons stand between
      them and with whatever white space; separators in quoted names and in mailboxes do not count. */
  lemma ListSplitsIntoItsEntries(es: seq<Entry>, glue: seq<Glue>)
    requires |es| == |glue| + 1
    requires (forall e :: e in es ==> IsEntry(e)) && (forall g :: g in glue ==> IsGlue(g))
    ensures Split(Listed(es, glue)) == Texts(es)
  {
    hide Written, Trim, Segments, Kept, AllSpace, HasSeparator, IsEntry, IsGlue;
    NoSpace();
    ListedIsCut("", es, glue);
    assert "" + Listed(es, glue) == Listed(es, glue);
    if glue == [] {
      PaddedEntry("", es[0], "");
      assert "" + Written(es[0]) + "" == Written(es[0]);
      assert Texts(es[1..]) == [];
    } else {
      assert glue[0] in glue;
      MarkIsThere(es, glue);
    }
  }
}
