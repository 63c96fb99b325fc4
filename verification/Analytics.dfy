/** Injecting the analytics block into a page: between its markers if they are there, else right after the
    opening head tag. */
module Analytics {
  import opened Common
  import opened Text

  const START := "<!--ARKIVE_GA_START-->"
  const END := "<!--ARKIVE_GA_END-->"

  predicate IsIdChar(c: char) {
    'a' <= c <= 'z' || 'A' <= c <= 'Z' || '0' <= c <= '9' || c == '-'
    || c == '\U{0130}' || c == '\U{0131}' || c == '\U{017F}' || c == '\U{212A}'  // fold into ASCII letters
  }

  function Lower(c: char): char {
    if 'A' <= c <= 'Z' then (c as int + 32) as char else c
  }

  /** A prefix among G, GT, AW, UA, DC in either case, a hyphen, and at least one more letter, digit or hyphen. */
  predicate IsMeasurementId(s: string) {
    var body := if |s| > 1 && s[1] == '-' then 1 else 2;
    && |s| > body + 1 && s[body] == '-'
    && (if body == 1 then Lower(s[0]) == 'g'
        else [Lower(s[0]), Lower(s[1])] in {"gt", "aw", "ua", "dc"})
    && forall i :: body < i < |s| ==> IsIdChar(s[i])
  }

  const OPENING := ["<!-- Google tag (gtag.js) -->", "<script async src=\"", "https://www.googletagmanager.com/",
                    "gtag/js?id="]
  const MIDDLE := ["\"></script><script>", "window.dataLayer=", "window.dataLayer||[];", "function gtag(){",
                   "dataLayer.push(arguments);}", "gtag('js',new Date());", "gtag('config','"]
  const CLOSING := ["');</script>"]

  function Concat(parts: seq<string>): string {
    if parts == [] then "" else parts[0] + Concat(parts[1..])
  }

  function Snippet(id: string): string {
    var t := Trim(id);
    if IsMeasurementId(t) then Concat(OPENING) + t + Concat(MIDDLE) + t + Concat(CLOSING) else ""
  }

  function Block(id: string): string {
    START + Snippet(id) + END
  }

  predicate StartsWithHead(s: string) {
    && |s| >= 5 && s[0] == '<' && Lower(s[1]) == 'h' && Lower(s[2]) == 'e' && Lower(s[3]) == 'a' && Lower(s[4]) == 'd'
  }

  /** The end of the first head tag. */
  function HeadEnd(s: string): (r: Option<nat>)
    ensures r.Some? ==> r.value <= |s|
  {
    var close := Find(">", s, 5);
    if StartsWithHead(s) && close.Some? then Some(close.value + 1)
    else if s == "" then None
    else
      var e := HeadEnd(s[1..]);
      if e.Some? then Some(e.value + 1) else None
  }

  /** The stretch of the page that the block replaces: from the first `p` to the next `q`, or the empty stretch
      behind the head tag of a page that lacks one of them. */
  function Place(p: string, q: string, html: string): (r: Option<(nat, nat)>)
    ensures r.Some? ==> r.value.0 <= r.value.1 <= |html|
  {
    if Occurs(p, html) && Occurs(q, html) then
      var i := Find(p, html, 0).value;
      var j := Find(q, html, i + |p|);
      if j.None? then None else Some((i, j.value + |q|))
    else
      var e := HeadEnd(html);
      if e.None? then None else Some((e.value, e.value))
  }

  function InjectBlock(p: string, q: string, block: string, html: string): string {
    var place := Place(p, q, html);
    if place.None? then html else html[..place.value.0] + block + html[place.value.1..]
  }

  function Inject(html: string, id: string): string {
    InjectBlock(START, END, Block(id), html)
  }

  /** The page `InjectBlock` describes; None when there is no head tag to put the block behind. */
  method NewPage(p: string, q: string, block: string, html: string) returns (page: Option<string>)
    ensures page.GetOr(html) == InjectBlock(p, q, block, html)
  {
    if Occurs(p, html) && Occurs(q, html) {
      var i := Find(p, html, 0);
      var j := Find(q, html, i.value + |p|);
      page := Some(if j.None? then html else html[..i.value] + block + html[j.value + |q|..]);
    } else {
      var e := HeadEnd(html);
      page := if e.None? then None else Some(html[..e.value] + block + html[e.value..]);
    }
  }

  /** An index page on disk. */
  class IndexFile {
    var text: Option<string>

    constructor (text: Option<string>)
      ensures this.text == text
    {
      this.text := text;
    }

    /** Rewrites the page in one step and tells whether it changed; a page that cannot be read or written
        stays as it is. */
    method InjectIndex(id: string, writable: bool) returns (changed: bool)
      modifies this
      ensures text == if old(text).Some? && writable then Some(Inject(old(text).value, id)) else old(text)
      ensures changed <==> text != old(text)
    {
      if text.None? {
        return false;
      }
      var page := NewPage(START, END, Block(id), text.value);
      if page.None? || page == text || !writable {
        return false;
      }
      text := page;
      changed := true;
    }
  }

  /* ---------- the markers cannot overlap ---------- */

  predicate NoUnderscore(s: string) {
    forall k :: 0 <= k < |s| ==> s[k] != '_'
  }

  lemma {:induction false} NoUnderscoreInConcat(parts: seq<string>)
    requires forall i :: 0 <= i < |parts| ==> NoUnderscore(parts[i])
    ensures NoUnderscore(Concat(parts))
  {
    if parts != [] {
      NoUnderscoreInConcat(parts[1..]);
    }
  }

  lemma NoUnderscoreInOpening()
    ensures NoUnderscore(Concat(OPENING))
  {
    assert NoUnderscore(OPENING[0]) && NoUnderscore(OPENING[1]) && NoUnderscore(OPENING[2]) && NoUnderscore(OPENING[3]);
    NoUnderscoreInConcat(OPENING);
  }

  lemma NoUnderscoreInMiddle()
    ensures NoUnderscore(Concat(MIDDLE))
  {
    assert NoUnderscore(MIDDLE[0]) && NoUnderscore(MIDDLE[1]) && NoUnderscore(MIDDLE[2]) && NoUnderscore(MIDDLE[3]);
    assert NoUnderscore(MIDDLE[4]) && NoUnderscore(MIDDLE[5]) && NoUnderscore(MIDDLE[6]);
    NoUnderscoreInConcat(MIDDLE);
  }

  lemma NoUnderscoreInClosing()
    ensures NoUnderscore(Concat(CLOSING))
  {
    assert NoUnderscore(CLOSING[0]);
    NoUnderscoreInConcat(CLOSING);
  }

  lemma NoUnderscoreInId(t: string)
    requires IsMeasurementId(t)
    ensures NoUnderscore(t)
  {
  }

  lemma NoUnderscoreInSum(a: string, b: string)
    requires NoUnderscore(a) && NoUnderscore(b)
    ensures NoUnderscore(a + b)
  {
  }

  lemma NoUnderscoreInSnippet(id: string)
    ensures NoUnderscore(Snippet(id))
  {
    var t := Trim(id);
    if IsMeasurementId(t) {
      NoUnderscoreInOpening();
      NoUnderscoreInMiddle();
      NoUnderscoreInClosing();
      NoUnderscoreInId(t);
      hide NoUnderscore, IsMeasurementId, Concat, Trim;
      NoUnderscoreInSum(Concat(OPENING), t);
      NoUnderscoreInSum(Concat(OPENING) + t, Concat(MIDDLE));
      NoUnderscoreInSum(Concat(OPENING) + t + Concat(MIDDLE), t);
      NoUnderscoreInSum(Concat(OPENING) + t + Concat(MIDDLE) + t, Concat(CLOSING));
    } else {
      assert NoUnderscore("");
    }
  }

  /* ---------- the block is found again where it was put ---------- */

  /** What makes two markers unmistakable around a text: each has its own first character once, they differ at
      `d`, and the closing one has a character at `u` that the text lacks. */
  predicate Unmistakable(p: string, q: string, middle: string, d: nat, u: nat) {
    && StartsOnlyWith(p, '<') && StartsOnlyWith(q, '<')
    && d < |p| && d < |q| && p[d] != q[d]
    && u < |q| && forall k :: 0 <= k < |middle| ==> middle[k] != q[u]
  }

  lemma NoEndInside(p: string, q: string, middle: string, d: nat, u: nat, x: string, y: string, k: nat)
    requires Unmistakable(p, q, middle, d, u) && |x| <= k < |x| + |p| + |middle|
    ensures !OccursAt(q, x + p + middle + q + y, k)
  {
    var s, close := x + p + middle + q + y, |x| + |p| + |middle|;
    if k == |x| {
      assert s[k + d] == p[d];
      Mismatch(q, s, k, d);
    } else if k < |x| + |p| {
      assert s[k] == p[k - |x|];
      Mismatch(q, s, k, 0);
    } else if k + u < close {
      assert s[k + u] == middle[k + u - |x| - |p|];
      Mismatch(q, s, k, u);
    } else {
      assert s[close] == q[0];
      Mismatch(q, s, k, close - k);
    }
  }

  lemma EndFoundAt(p: string, q: string, middle: string, d: nat, u: nat, x: string, y: string, from: nat)
    requires Unmistakable(p, q, middle, d, u) && from <= |x| + |p| + |middle|
    requires !Occurs(q, x) || |x| <= from
    ensures Find(q, x + p + middle + q + y, from) == Some(|x| + |p| + |middle|)
  {
    var s, z := x + p + middle + q + y, p + middle + q + y;
    assert s == x + z;
    assert OccursAt(q, s, |x| + |p| + |middle|);
    forall k | from <= k < |x| + |p| + |middle|
      ensures !OccursAt(q, s, k)
    {
      if k < |x| {
        NoStraddling(q, '<', x, z, k);
      } else {
        NoEndInside(p, q, middle, d, u, x, y, k);
      }
    }
  }

  lemma PlaceBetween(p: string, q: string, html: string, i: nat, j: nat)
    requires Find(p, html, 0) == Some(i) && Find(q, html, i + |p|) == Some(j)
    ensures Place(p, q, html) == Some((i, j + |q|))
  {
    assert OccursAt(p, html, i) && OccursAt(q, html, j);
  }

  lemma StartOfBlock(p: string, q: string, middle: string, block: string, x: string, y: string)
    requires StartsOnlyWith(p, '<') && !Occurs(p, x) && block == p + middle + q
    ensures Find(p, x + block + y, 0) == Some(|x|)
  {
    assert x + block + y == x + p + (middle + q + y);
    FirstFoundAt(p, '<', x, middle + q + y);
  }

  lemma EndOfBlock(p: string, q: string, middle: string, d: nat, u: nat, block: string, x: string, y: string, from: nat)
    requires Unmistakable(p, q, middle, d, u) && block == p + middle + q && from <= |x| + |p| + |middle|
    requires !Occurs(q, x) || |x| <= from
    ensures Find(q, x + block + y, from) == Some(|x| + |p| + |middle|)
  {
    assert x + block + y == x + p + middle + q + y;
    EndFoundAt(p, q, middle, d, u, x, y, from);
  }

  /** The next injection finds a block between the markers, all of it and nothing else. */
  lemma PlaceOfBlock(p: string, q: string, middle: string, d: nat, u: nat, block: string, x: string, y: string)
    requires Unmistakable(p, q, middle, d, u) && !Occurs(p, x) && block == p + middle + q
    ensures Place(p, q, x + block + y) == Some((|x|, |x| + |block|))
  {
    hide Place, HeadEnd, Find, IsFirstFrom, Occurs, OccursAt;
    StartOfBlock(p, q, middle, block, x, y);
    EndOfBlock(p, q, middle, d, u, block, x, y, |x| + |p|);
    PlaceBetween(p, q, x + block + y, |x|, |x| + |p| + |middle|);
  }

  /** The pages on which a later change of the id goes wrong: a start marker stands before the place of the block. */
  predicate Swallowing(p: string, q: string, html: string) {
    var place := Place(p, q, html);
    place.Some? && Occurs(p, html[..place.value.0])
  }

  lemma OccursInPart(p: string, s: string, e: nat)
    requires e <= |s| && Occurs(p, s[..e])
    ensures Occurs(p, s)
  {
    var i :| 0 <= i <= e && OccursAt(p, s[..e], i);
    assert s[..e][i..i + |p|] == s[i..i + |p|];
    assert OccursAt(p, s, i);
  }

  lemma FirstFoundInside(p: string, x: string, z: string) returns (i: nat)
    requires p != "" && Occurs(p, x)
    ensures i < |x| && Find(p, x + z, 0) == Some(i)
  {
    var k :| 0 <= k <= |x| && OccursAt(p, x, k);
    assert (x + z)[k..k + |p|] == x[k..k + |p|];
    assert OccursAt(p, x + z, k);
    i := Find(p, x + z, 0).value;
  }

  lemma NothingBeforeTheFirst(p: string, s: string, i: nat)
    requires Find(p, s, 0) == Some(i) && p != ""
    ensures !Occurs(p, s[..i])
  {
    forall k | 0 <= k <= i
      ensures !OccursAt(p, s[..i], k)
    {
      if k + |p| <= i {
        assert s[..i][k..k + |p|] == s[k..k + |p|];
        assert !OccursAt(p, s, k);
      }
    }
  }

  /** A start marker before the place of the block has no end marker behind it on the page. */
  lemma SwallowingPage(p: string, q: string, html: string)
    requires p != "" && Swallowing(p, q, html)
    ensures !Occurs(q, html[..Place(p, q, html).value.0])
    ensures Place(p, q, html).value.0 == Place(p, q, html).value.1
  {
    var e := Place(p, q, html).value.0;
    OccursInPart(p, html, e);
    if Occurs(q, html) {
      NothingBeforeTheFirst(p, html, e);
      assert false;
    }
    if Occurs(q, html[..e]) {
      OccursInPart(q, html, e);
    }
  }

  /** The second injection finds the start marker in `x` and the end marker of the first one's block. */
  lemma PlaceSwallows(p: string, q: string, middle: string, d: nat, u: nat, block: string, x: string, y: string)
    returns (i: nat)
    requires Unmistakable(p, q, middle, d, u) && block == p + middle + q && Occurs(p, x) && !Occurs(q, x)
    ensures i < |x| && Place(p, q, x + block + y) == Some((i, |x| + |block|))
  {
    hide Place, HeadEnd, Find, IsFirstFrom, Occurs, OccursAt;
    assert x + block + y == x + (block + y);
    i := FirstFoundInside(p, x, block + y);
    EndOfBlock(p, q, middle, d, u, block, x, y, i + |p|);
    PlaceBetween(p, q, x + block + y, i, |x| + |p| + |middle|);
  }

  lemma SecondBlockReplacesTheFirst(p: string, q: string, block: string, before: string, x: string, y: string)
    requires Place(p, q, x + before + y) == Some((|x|, |x| + |before|))
    ensures InjectBlock(p, q, block, x + before + y) == x + block + y
  {
    var s := x + before + y;
    assert s[..|x|] == x && s[|x| + |before|..] == y;
  }

  lemma LastIsShorter(p: string, q: string, middle: string, d: nat, u: nat, before: string, block: string, html: string)
    requires Unmistakable(p, q, middle, d, u) && before == p + middle + q && Swallowing(p, q, html)
    ensures |InjectBlock(p, q, block, InjectBlock(p, q, before, html))| < |InjectBlock(p, q, block, html)|
  {
    var place := Place(p, q, html);
    var x, y := html[..place.value.0], html[place.value.1..];
    SwallowingPage(p, q, html);
    var i := PlaceSwallows(p, q, middle, d, u, before, x, y);
    assert |InjectBlock(p, q, block, x + before + y)| < |x + block + y|;
  }

  lemma LastWinsIff(p: string, q: string, middle: string, d: nat, u: nat, before: string, block: string, html: string)
    requires Unmistakable(p, q, middle, d, u) && before == p + middle + q
    ensures InjectBlock(p, q, block, InjectBlock(p, q, before, html)) == InjectBlock(p, q, block, html)
      <==> !Swallowing(p, q, html)
  {
    var place := Place(p, q, html);
    if place.Some? {
      var x, y := html[..place.value.0], html[place.value.1..];
      if Occurs(p, x) {
        LastIsShorter(p, q, middle, d, u, before, block, html);
      } else {
        PlaceOfBlock(p, q, middle, d, u, before, x, y);
        SecondBlockReplacesTheFirst(p, q, block, before, x, y);
      }
    }
  }

  /* ---------- the analytics block ---------- */

  lemma MarkersAreUnmistakable(id: string)
    ensures Unmistakable(START, END, Snippet(id), 14, 10)
  {
    NoUnderscoreInSnippet(id);
    assert END[10] == '_' && START[14] == 'S' && END[14] == 'E';
  }

  /** The last id given to a page is the one that counts, on every page except those where a start marker without
      an end marker stands before the end of the head tag; the empty id, which clears the block, is among the ids. */
  lemma LastInjectionWinsIff(html: string, a: string, b: string)
    ensures Inject(Inject(html, a), b) == Inject(html, b) <==> !Swallowing(START, END, html)
  {
    MarkersAreUnmistakable(a);
    LastWinsIff(START, END, Snippet(a), 14, 10, Block(a), Block(b), html);
  }

  /** A page with a head tag and no start marker: injecting twice is injecting once, an injection is undone by the
      one before it, and the text outside the block stays. */
  lemma FreshPageIsInjectedOnce(html: string, a: string, b: string)
    requires HeadEnd(html).Some? && !Occurs(START, html)
    ensures Inject(Inject(html, a), a) == Inject(html, a)
    ensures Inject(Inject(Inject(html, a), b), a) == Inject(html, a)
    ensures var e := HeadEnd(html).value; Inject(html, a) == html[..e] + Block(a) + html[e..]
  {
    hide Find, HeadEnd, OccursAt, Snippet;
    var e := HeadEnd(html).value;
    if Occurs(START, html[..e]) {
      OccursInPart(START, html, e);
    }
    LastInjectionWinsIff(html, a, a);
    LastInjectionWinsIff(html, a, b);
    LastInjectionWinsIff(html, b, a);
    assert html[..e] + html[e..] == html;
  }

  /** The failing case: with a start marker inside the head tag, changing the id loses text of the page. */
  lemma MarkerInTheHeadTagSwallows(a: string, b: string)
    ensures var html := "<head" + START;
            && Swallowing(START, END, html)
            && Inject(Inject(html, a), b) != Inject(html, b)
            && |Inject(Inject(html, a), b)| < |Inject(html, b)|
  {
    MarkerStandsInTheHeadTag();
    hide InjectBlock, Snippet, Swallowing, Block;
    var html := "<head" + START;
    LastInjectionWinsIff(html, a, b);
    SecondInjectionIsShorter(html, a, b);
  }

  lemma SecondInjectionIsShorter(html: string, a: string, b: string)
    requires Swallowing(START, END, html)
    ensures |Inject(Inject(html, a), b)| < |Inject(html, b)|
  {
    hide Snippet, HeadEnd, Find, Occurs, OccursAt;
    MarkersAreUnmistakable(a);
    LastIsShorter(START, END, Snippet(a), 14, 10, Block(a), Block(b), html);
  }

  lemma MarkerStandsInTheHeadTag()
    ensures Swallowing(START, END, "<head" + START)
  {
    var html := "<head" + START;
    assert html[5..27] == START && OccursAt(START, html, 5);
    forall i | 0 <= i <= 27
      ensures !OccursAt(END, html, i)
    {
      if i == 0 {
        Mismatch(END, html, 0, 1);
      } else if i == 5 {
        Mismatch(END, html, 5, 14);
      } else {
        Mismatch(END, html, i, 0);
      }
    }
    assert html[26..27] == ">" && OccursAt(">", html, 26);
    forall i | 5 <= i < 26
      ensures !OccursAt(">", html, i)
    {
      StartClosesOnce(i - 5);
      assert html[i] == START[i - 5];
      Mismatch(">", html, i, 0);
    }
    assert Find(">", html, 5) == Some(26);
    assert html[..27] == html;
  }

  lemma StartClosesOnce(i: nat)
    requires i < |START| - 1
    ensures START[i] != '>'
  {
  }

  /* ---------- where the block goes ---------- */

  /** The text begins with the opening of a head tag, in either case. */
  predicate OpensHead(s: string) {
    && |s| >= 5 && s[0] == '<' && s[1] in {'h', 'H'} && s[2] in {'e', 'E'} && s[3] in {'a', 'A'} && s[4] in {'d', 'D'}
  }

  /** A head tag with its attributes stands from `i` to `e`. */
  predicate IsHeadTag(s: string, i: nat, e: nat) {
    && i + 5 < e <= |s| && OpensHead(s[i..]) && s[e - 1] == '>'
    && forall k :: i + 5 <= k < e - 1 ==> s[k] != '>'
  }

  ghost predicate FirstTag(s: string, i: nat, e: nat) {
    IsHeadTag(s, i, e) && forall j: nat, f: nat :: j < i ==> !IsHeadTag(s, j, f)
  }

  ghost predicate NoTag(s: string) {
    forall i: nat, e: nat :: !IsHeadTag(s, i, e)
  }

  lemma TagInTail(s: string, i: nat, e: nat)
    requires s != ""
    ensures IsHeadTag(s, i + 1, e + 1) <==> IsHeadTag(s[1..], i, e)
  {
    if i + 1 <= |s| {
      assert s[1..][i..] == s[i + 1..];
    }
    if e < |s| {
      assert forall k :: i + 5 <= k < e - 1 ==> s[1..][k] == s[k + 1];
      assert forall k :: i + 6 <= k < e ==> s[k] == s[1..][k - 1];
    }
  }

  lemma TagAtStart(s: string, e: nat)
    ensures IsHeadTag(s, 0, e) <==> StartsWithHead(s) && e > 0 && Find(">", s, 5) == Some((e - 1) as nat)
  {
    assert s[0..] == s;
    forall k: int | 0 <= k < |s|
      ensures OccursAt(">", s, k) <==> s[k] == '>'
    {
      assert s[k..k + 1] == [s[k]];
    }
  }

  /** With no head tag at its start, the tags of a text are those of its tail. */
  lemma TagsOfTail(s: string)
    requires s != "" && forall e: nat :: !IsHeadTag(s, 0, e)
    ensures NoTag(s[1..]) ==> NoTag(s)
    ensures forall i: nat, e: nat :: FirstTag(s[1..], i, e) ==> FirstTag(s, i + 1, e + 1)
  {
    forall i: nat, e: nat | 0 < i && IsHeadTag(s, i, e)
      ensures e > 0 && IsHeadTag(s[1..], i - 1, e - 1)
    {
      TagInTail(s, i - 1, e - 1);
    }
    hide IsHeadTag;
    forall i: nat, e: nat | FirstTag(s[1..], i, e)
      ensures FirstTag(s, i + 1, e + 1)
    {
      TagInTail(s, i, e);
    }
  }

  /** The block goes behind the first head tag, attributes included; there is no place for it exactly when the page
      has none. */
  lemma {:induction false} HeadEndIsBehindTheFirstTag(s: string)
    ensures HeadEnd(s).None? <==> NoTag(s)
    ensures HeadEnd(s).Some? ==> exists i: nat :: FirstTag(s, i, HeadEnd(s).value)
  {
    hide Find, StartsWithHead, IsHeadTag;
    var close := Find(">", s, 5);
    if StartsWithHead(s) && close.Some? {
      TagAtStart(s, close.value + 1);
      assert FirstTag(s, 0, close.value + 1);
    } else {
      forall e: nat
        ensures !IsHeadTag(s, 0, e)
      {
        TagAtStart(s, e);
      }
      if s == "" {
        NoTagInNothing();
      } else {
        HeadEndIsBehindTheFirstTag(s[1..]);
        TagsOfTail(s);
        if HeadEnd(s[1..]).Some? {
          var e := HeadEnd(s[1..]).value;
          var i: nat :| FirstTag(s[1..], i, e);
          assert FirstTag(s, i + 1, e + 1);
        }
      }
    }
  }

  lemma NoTagInNothing()
    ensures NoTag("")
  {
  }

  /* ---------- what the block says ---------- */

  const SMALL := "abcdefghijklmnopqrstuvwxyz"
  const CAPITALS := "ABCDEFGHIJKLMNOPQRSTUVWXYZ"
  const DIGITS := "0123456789"
  const FOLDING := {'\U{0130}', '\U{0131}', '\U{017F}', '\U{212A}'}
  const PREFIXES := {"G", "GT", "AW", "UA", "DC"}

  /** The text in capitals or with some of them small. */
  predicate InEitherCase(s: string, capitals: string) {
    |s| == |capitals|
    && forall k :: 0 <= k < |s| ==> s[k] == capitals[k] || s[k] as int == capitals[k] as int - 'A' as int + 'a' as int
  }

  predicate MadeOfIdChars(s: string) {
    forall k :: 0 <= k < |s| ==> s[k] in SMALL || s[k] in CAPITALS || s[k] in DIGITS || s[k] == '-' || s[k] in FOLDING
  }

  /** One of the prefixes, a hyphen, and something behind it. */
  ghost predicate HasTheForm(s: string, n: nat) {
    n + 1 < |s| && s[n] == '-' && MadeOfIdChars(s[n + 1..]) && IsPrefix(s[..n])
  }

  lemma SmallLetterAt(k: nat)
    requires k < 26
    ensures SMALL[k] as int == 'a' as int + k
  {
  }

  lemma CapitalAt(k: nat)
    requires k < 26
    ensures CAPITALS[k] as int == 'A' as int + k
  {
  }

  lemma DigitAt(k: nat)
    requires k < 10
    ensures DIGITS[k] as int == '0' as int + k
  {
  }

  lemma RunsOfChars(run: string, first: char, last: char, c: char)
    requires |run| == last as int - first as int + 1
    requires forall k :: 0 <= k < |run| ==> run[k] as int == first as int + k
    ensures c in run <==> first <= c <= last
  {
    if first <= c <= last {
      assert run[c as int - first as int] == c;
    }
  }

  lemma IdCharsAre(c: char)
    ensures IsIdChar(c) <==> c in SMALL || c in CAPITALS || c in DIGITS || c == '-' || c in FOLDING
  {
    forall k | 0 <= k < 26
      ensures SMALL[k] as int == 'a' as int + k && CAPITALS[k] as int == 'A' as int + k
    {
      SmallLetterAt(k);
      CapitalAt(k);
    }
    forall k | 0 <= k < 10
      ensures DIGITS[k] as int == '0' as int + k
    {
      DigitAt(k);
    }
    RunsOfChars(SMALL, 'a', 'z', c);
    RunsOfChars(CAPITALS, 'A', 'Z', c);
    RunsOfChars(DIGITS, '0', '9', c);
  }

  ghost predicate IsPrefix(h: string) {
    exists p :: p in PREFIXES && InEitherCase(h, p)
  }

  lemma PrefixesAre(h: string)
    ensures IsPrefix(h) <==> (|h| == 1 && Lower(h[0]) == 'g')
                             || (|h| == 2 && [Lower(h[0]), Lower(h[1])] in {"gt", "aw", "ua", "dc"})
  {
    if |h| == 1 && Lower(h[0]) == 'g' {
      assert "G" in PREFIXES && InEitherCase(h, "G");
    } else if |h| == 2 {
      TwoLetters(h, "GT", "gt");
      TwoLetters(h, "AW", "aw");
      TwoLetters(h, "UA", "ua");
      TwoLetters(h, "DC", "dc");
      assert "GT" in PREFIXES && "AW" in PREFIXES && "UA" in PREFIXES && "DC" in PREFIXES;
    }
  }

  lemma TwoLetters(h: string, capitals: string, small: string)
    requires |h| == 2 && |capitals| == 2 && |small| == 2
    requires forall k :: 0 <= k < 2 ==>
               'A' <= capitals[k] <= 'Z' && small[k] as int == capitals[k] as int - 'A' as int + 'a' as int
    ensures InEitherCase(h, capitals) <==> [Lower(h[0]), Lower(h[1])] == small
  {
  }

  lemma IdCharsFrom(s: string, n: nat)
    requires n <= |s|
    ensures MadeOfIdChars(s[n..]) <==> forall i :: n <= i < |s| ==> IsIdChar(s[i])
  {
    forall i | n <= i < |s|
      ensures IsIdChar(s[i]) <==> var c := s[n..][i - n]; c in SMALL || c in CAPITALS || c in DIGITS || c == '-'
                                                          || c in FOLDING
    {
      IdCharsAre(s[i]);
    }
    hide IsIdChar;
    if forall i :: n <= i < |s| ==> IsIdChar(s[i]) {
      forall k | 0 <= k < |s[n..]|
        ensures IsIdChar(s[n..][k])
      {
        assert IsIdChar(s[n + k]);
      }
    }
  }

  lemma HasFormAt(s: string, n: nat)
    requires 0 < n <= 2
    ensures HasTheForm(s, n) <==> IsMeasurementId(s) && n == if |s| > 1 && s[1] == '-' then 1 else 2
  {
    if n < |s| {
      PrefixesAre(s[..n]);
      IdCharsFrom(s, n + 1);
    }
    hide IsIdChar, MadeOfIdChars, IsPrefix;
  }

  /** The ids are: a prefix in either case, a hyphen, and at least one letter, digit or hyphen. */
  lemma MeasurementIdIff(s: string)
    ensures IsMeasurementId(s) <==> exists n: nat :: HasTheForm(s, n)
  {
    HasFormAt(s, 1);
    HasFormAt(s, 2);
    forall n: nat | HasTheForm(s, n)
      ensures 0 < n <= 2
    {
      PrefixesAre(s[..n]);
    }
    hide IsMeasurementId, HasTheForm;
  }

  lemma ConcatFrom(p: seq<string>, i: nat)
    requires i < |p|
    ensures Concat(p[i..]) == p[i] + Concat(p[i + 1..])
  {
    assert p[i..][1..] == p[i + 1..];
  }

  lemma ConcatFour(p: seq<string>)
    requires |p| == 4
    ensures Concat(p) == p[0] + (p[1] + (p[2] + p[3]))
  {
    hide Concat;
    ConcatFrom(p, 0);
    ConcatFrom(p, 1);
    ConcatFrom(p, 2);
    ConcatOne(p[3..]);
    assert p[0..] == p;
  }

  lemma ConcatOne(p: seq<string>)
    requires |p| == 1
    ensures Concat(p) == p[0]
  {
    assert p[0] + "" == p[0];
  }

  lemma ConcatSeven(p: seq<string>)
    requires |p| == 7
    ensures Concat(p) == p[0] + (p[1] + (p[2] + (p[3] + (p[4] + (p[5] + p[6])))))
  {
    hide Concat;
    ConcatFrom(p, 0);
    ConcatFrom(p, 1);
    ConcatFrom(p, 2);
    ConcatFour(p[3..]);
    assert p[0..] == p;
  }

  /** A valid id, with any white space around it, has its loader on the page and is configured there; anything else
      leaves the place between the markers empty. */
  lemma BlockSaysTheId(l: string, t: string, r: string)
    requires AllSpace(l) && AllSpace(r) && IsTrimmed(t)
    ensures (exists n: nat :: HasTheForm(t, n)) ==>
              var loader := "<!-- Google tag (gtag.js) -->" + ("<script async src=\""
                            + ("https://www.googletagmanager.com/" + "gtag/js?id="));
              var setup := "\"></script><script>" + ("window.dataLayer=" + ("window.dataLayer||[];"
                           + ("function gtag(){" + ("dataLayer.push(arguments);}" + ("gtag('js',new Date());"
                           + "gtag('config','")))));
              Block(l + t + r) == START + (loader + t + setup + t + "');</script>") + END
    ensures !(exists n: nat :: HasTheForm(t, n)) ==> Block(l + t + r) == START + END
  {
    hide HasTheForm, IsMeasurementId;
    TrimDropsSpaceAround(l, t, r);
    MeasurementIdIff(t);
    hide Concat;
    ConcatFour(OPENING);
    ConcatSeven(MIDDLE);
    ConcatOne(CLOSING);
  }

  /** What stands between the markers is replaced, and nothing else: from the first start marker to the first end
      marker behind it. */
  lemma MarkedBlockIsReplaced(x: string, m: string, y: string, id: string)
    requires !Occurs(START, x) && !Occurs(END, m)
    ensures Inject(x + START + m + END + y, id) == x + Block(id) + y
  {
    var s := x + START + m + END + y;
    assert s == x + START + (m + END + y);
    FirstFoundAt(START, '<', x, m + END + y);
    EndBehind(x + START, m, y);
    var i, j := |x|, |x + START| + |m|;
    PlaceBetween(START, END, s, i, j);
    assert s[..i] == x && s[j + |END|..] == y;
  }

  lemma EndBehind(x: string, m: string, y: string)
    requires !Occurs(END, m)
    ensures Find(END, x + m + END + y, |x|) == Some(|x| + |m|)
  {
    var s, z := x + m + END + y, END + y;
    assert s == x + (m + z);
    assert OccursAt(END, s, |x| + |m|);
    forall k | |x| <= k < |x| + |m|
      ensures !OccursAt(END, s, k)
    {
      NoStraddling(END, '<', m, z, k - |x|);
      assert !OccursAt(END, m, k - |x|);
      if k + |END| <= |s| {
        assert s[k..k + |END|] == (m + z)[k - |x|..k - |x| + |END|];
      }
    }
  }
}
