/** The audit ledger: every row carries a hash of itself and of the row before it. */
module Audit {
  import opened Common

  /** How details are shown in the hashed text and how they come back from the database, and the digest. */
  datatype Codec<!D> = Codec(sha: string -> string, show: D -> string, reload: D -> D, empty: D)

  datatype Row<D> = Row(createdAt: int, actor: string, action: string, resource: string, detail: D,
                        prevHash: string, entryHash: string)

  datatype Entry<D> = Entry(actor: string, action: string, resource: string, detail: Option<D>)

  function Body(prev: string, actor: string, action: string, resource: string, shown: string): string {
    prev + ("|" + (actor + ("|" + (action + ("|" + (resource + ("|" + shown)))))))
  }

  function LastHash<D>(rows: seq<Row<D>>): string {
    if rows == [] then "" else rows[|rows| - 1].entryHash
  }

  function Shown<D>(c: Codec<D>, e: Entry<D>): string {
    if e.detail.Some? then c.show(e.detail.value) else "None"
  }

  /** The row a record makes behind the latest one: the hash is taken of the detail as given, and `None` is
      hashed as "None" although the empty detail is stored. */
  function NewRow<D>(c: Codec<D>, rows: seq<Row<D>>, e: Entry<D>, now: int): Row<D> {
    Row(now, e.actor, e.action, e.resource, c.reload(e.detail.GetOr(c.empty)), LastHash(rows),
        c.sha(Body(LastHash(rows), e.actor, e.action, e.resource, Shown(c, e))))
  }

  /** The table in the order of its time stamps, with one more row. */
  function Insert<D>(rows: seq<Row<D>>, row: Row<D>): seq<Row<D>> {
    if rows == [] || rows[|rows| - 1].createdAt < row.createdAt then rows + [row]
    else Insert(rows[..|rows| - 1], row) + [rows[|rows| - 1]]
  }

  function Recorded<D>(c: Codec<D>, rows: seq<Row<D>>, e: Entry<D>, now: int): seq<Row<D>> {
    Insert(rows, NewRow(c, rows, e, now))
  }

  /** The row's hash is that of its own fields behind `prev`. */
  predicate Fits<D>(c: Codec<D>, prev: string, r: Row<D>) {
    c.sha(Body(prev, r.actor, r.action, r.resource, c.show(r.detail))) == r.entryHash
  }

  predicate FitsAt<D>(c: Codec<D>, rows: seq<Row<D>>, i: nat)
    requires i < |rows|
  {
    Fits(c, LastHash(rows[..i]), rows[i])
  }

  /** What verification looks for: each row fits behind the one before it. */
  predicate Chained<D>(c: Codec<D>, rows: seq<Row<D>>) {
    forall i :: 0 <= i < |rows| ==> FitsAt(c, rows, i)
  }

  class Ledger<D> {
    var rows: seq<Row<D>>

    constructor ()
      ensures rows == []
    {
      rows := [];
    }

    method Record(c: Codec<D>, e: Entry<D>, now: int) returns (row: Row<D>)
      modifies this
      ensures rows == Recorded(c, old(rows), e, now)
      ensures row == NewRow(c, old(rows), e, now)
    {
      var prevHash := if |rows| > 0 then rows[|rows| - 1].entryHash else "";
      var shown := if e.detail.Some? then c.show(e.detail.value) else "None";
      var entryHash := c.sha(Body(prevHash, e.actor, e.action, e.resource, shown));
      var stored := if e.detail.Some? then e.detail.value else c.empty;
      row := Row(now, e.actor, e.action, e.resource, c.reload(stored), prevHash, entryHash);
      rows := Insert(rows, row);
    }

    method VerifyChain(c: Codec<D>) returns (ok: bool)
      ensures ok <==> Chained(c, rows)
    {
      var prev := "";
      for i := 0 to |rows|
        invariant prev == LastHash(rows[..i])
        invariant forall j :: 0 <= j < i ==> FitsAt(c, rows, j)
      {
        var body := Body(prev, rows[i].actor, rows[i].action, rows[i].resource, c.show(rows[i].detail));
        if c.sha(body) != rows[i].entryHash {
          assert !FitsAt(c, rows, i);
          return false;
        }
        assert rows[..i + 1][i] == rows[i];
        prev := rows[i].entryHash;
      }
      ok := true;
    }
  }

  /* ---------- what the hash determines ---------- */

  /** Digests are never empty and have no bars. */
  ghost predicate GoodDigest<D(!new)>(c: Codec<D>) {
    forall x :: c.sha(x) != "" && '|' !in c.sha(x)
  }

  /** The digest does not collide on these two texts. */
  predicate Apart<D>(c: Codec<D>, x: string, y: string) {
    c.sha(x) == c.sha(y) ==> x == y
  }

  /** The text that verification hashes for a row. */
  function BodyOf<D>(c: Codec<D>, prev: string, r: Row<D>): string {
    Body(prev, r.actor, r.action, r.resource, c.show(r.detail))
  }

  /** The digest does not collide between the rows of one ledger and the rows of the other. */
  predicate RowsApart<D>(c: Codec<D>, rows: seq<Row<D>>, others: seq<Row<D>>) {
    forall i, j :: 0 <= i < |rows| && 0 <= j < |others| ==>
      Apart(c, BodyOf(c, LastHash(rows[..i]), rows[i]), BodyOf(c, LastHash(others[..j]), others[j]))
  }

  /** The digest does not collide between the text hashed for a record behind `rows` and the text that verification
      hashes for its row behind `prev`. */
  predicate RecordApart<D>(c: Codec<D>, rows: seq<Row<D>>, e: Entry<D>, prev: string) {
    Apart(c, BodyOf(c, prev, NewRow(c, rows, e, 0)), Body(LastHash(rows), e.actor, e.action, e.resource, Shown(c, e)))
  }

  predicate NoBars(actor: string, action: string, resource: string) {
    '|' !in actor && '|' !in action && '|' !in resource
  }

  predicate Clean<D>(rows: seq<Row<D>>) {
    forall i :: 0 <= i < |rows| ==> NoBars(rows[i].actor, rows[i].action, rows[i].resource)
  }

  function FirstBar(s: string): nat {
    if s == "" || s[0] == '|' then 0 else 1 + FirstBar(s[1..])
  }

  lemma {:induction false} FirstBarBehind(a: string, x: string)
    requires '|' !in a
    ensures FirstBar(a + ("|" + x)) == |a|
  {
    if a != "" {
      assert (a + ("|" + x))[1..] == a[1..] + ("|" + x);
      FirstBarBehind(a[1..], x);
    }
  }

  lemma SplitAtBar(a: string, x: string, b: string, y: string)
    requires '|' !in a && '|' !in b && a + ("|" + x) == b + ("|" + y)
    ensures a == b && x == y
  {
    FirstBarBehind(a, x);
    FirstBarBehind(b, y);
    var s := a + ("|" + x);
    assert a == s[..|a|] && b == s[..|b|];
    assert x == s[|a| + 1..] && y == s[|b| + 1..];
  }

  lemma BodyDeterminesFields(p: string, a: string, b: string, r: string, d: string,
                             p': string, a': string, b': string, r': string, d': string)
    requires NoBars(a, b, r) && NoBars(a', b', r') && '|' !in p && '|' !in p'
    requires Body(p, a, b, r, d) == Body(p', a', b', r', d')
    ensures p == p' && a == a' && b == b' && r == r' && d == d'
  {
    SplitAtBar(p, a + ("|" + (b + ("|" + (r + ("|" + d))))), p', a' + ("|" + (b' + ("|" + (r' + ("|" + d'))))));
    SplitAtBar(a, b + ("|" + (r + ("|" + d))), a', b' + ("|" + (r' + ("|" + d'))));
    SplitAtBar(b, r + ("|" + d), b', r' + ("|" + d'));
    SplitAtBar(r, d, r', d');
  }

  /** The fields the hash of a row covers. */
  predicate SameHashedFields<D>(c: Codec<D>, r: Row<D>, s: Row<D>) {
    r.actor == s.actor && r.action == s.action && r.resource == s.resource && c.show(r.detail) == c.show(s.detail)
    && r.entryHash == s.entryHash
  }

  lemma HashesAreGood<D(!new)>(c: Codec<D>, rows: seq<Row<D>>, i: nat)
    requires GoodDigest(c) && Chained(c, rows) && i <= |rows|
    ensures '|' !in LastHash(rows[..i]) && (LastHash(rows[..i]) == "" <==> i == 0)
  {
    if i > 0 {
      assert FitsAt(c, rows, i - 1);
    }
  }

  lemma HashDeterminesRow<D(!new)>(c: Codec<D>, p: string, r: Row<D>, q: string, s: Row<D>)
    requires Fits(c, p, r) && Fits(c, q, s) && r.entryHash == s.entryHash && Apart(c, BodyOf(c, p, r), BodyOf(c, q, s))
    requires NoBars(r.actor, r.action, r.resource) && NoBars(s.actor, s.action, s.resource) && '|' !in p && '|' !in q
    ensures p == q && SameHashedFields(c, r, s)
  {
    hide Body, NoBars;
    BodyDeterminesFields(p, r.actor, r.action, r.resource, c.show(r.detail), q, s.actor, s.action, s.resource,
                         c.show(s.detail));
  }

  lemma RowsApartAt<D>(c: Codec<D>, rows: seq<Row<D>>, others: seq<Row<D>>, i: nat, j: nat)
    requires RowsApart(c, rows, others) && i < |rows| && j < |others|
    ensures Apart(c, BodyOf(c, LastHash(rows[..i]), rows[i]), BodyOf(c, LastHash(others[..j]), others[j]))
  {
  }

  /** Two rows with one hash, in two chained ledgers, stand at the same place behind the same rows. */
  lemma {:induction false} HashDeterminesHistory<D(!new)>(c: Codec<D>, rows: seq<Row<D>>, others: seq<Row<D>>, i: nat,
                                                          j: nat)
    requires GoodDigest(c) && RowsApart(c, rows, others)
    requires Chained(c, rows) && Chained(c, others) && Clean(rows) && Clean(others)
    requires i <= |rows| && j <= |others| && LastHash(rows[..i]) == LastHash(others[..j])
    ensures i == j && forall k :: 0 <= k < i ==> SameHashedFields(c, rows[k], others[k])
  {
    hide GoodDigest, Fits, NoBars, SameHashedFields, RowsApart, Apart, BodyOf;
    HashesAreGood(c, rows, i);
    HashesAreGood(c, others, j);
    if i > 0 {
      HashesAreGood(c, rows, i - 1);
      HashesAreGood(c, others, j - 1);
      assert FitsAt(c, rows, i - 1) && FitsAt(c, others, j - 1);
      RowsApartAt(c, rows, others, i - 1, j - 1);
      HashDeterminesRow(c, LastHash(rows[..i - 1]), rows[i - 1], LastHash(others[..j - 1]), others[j - 1]);
      HashDeterminesHistory(c, rows, others, i - 1, j - 1);
    }
  }

  /** Tamper evidence: whoever knows the last hash of a passing ledger knows its length and every hashed field;
      no row can be changed, dropped, added or moved. */
  lemma LastHashDeterminesLedger<D(!new)>(c: Codec<D>, rows: seq<Row<D>>, others: seq<Row<D>>)
    requires GoodDigest(c) && RowsApart(c, rows, others)
    requires Chained(c, rows) && Chained(c, others) && Clean(rows) && Clean(others)
    requires LastHash(rows) == LastHash(others)
    ensures |rows| == |others| && forall k :: 0 <= k < |rows| ==> SameHashedFields(c, rows[k], others[k])
  {
    assert rows[..|rows|] == rows && others[..|others|] == others;
    HashDeterminesHistory(c, rows, others, |rows|, |others|);
  }

  /* ---------- what recording keeps ---------- */

  predicate InTimeOrder<D>(rows: seq<Row<D>>) {
    forall i, j :: 0 <= i < j < |rows| ==> rows[i].createdAt < rows[j].createdAt
  }

  /** The detail given is shown as the detail stored and read back is. */
  predicate ShownAsStored<D>(c: Codec<D>, e: Entry<D>) {
    match e.detail
    case Some(detail) => c.show(detail) == c.show(c.reload(detail))
    case None => "None" == c.show(c.reload(c.empty))
  }

  lemma NewRowFitsIff<D(!new)>(c: Codec<D>, rows: seq<Row<D>>, e: Entry<D>, now: int, prev: string)
    requires NoBars(e.actor, e.action, e.resource) && '|' !in prev && '|' !in LastHash(rows)
    requires RecordApart(c, rows, e, prev)
    ensures Fits(c, prev, NewRow(c, rows, e, now)) <==> prev == LastHash(rows) && ShownAsStored(c, e)
  {
    var r := NewRow(c, rows, e, now);
    if Fits(c, prev, r) {
      BodyDeterminesFields(prev, e.actor, e.action, e.resource, c.show(r.detail),
                           LastHash(rows), e.actor, e.action, e.resource, Shown(c, e));
    }
  }

  lemma {:induction false} InsertPosition<D>(rows: seq<Row<D>>, row: Row<D>) returns (k: nat)
    requires InTimeOrder(rows)
    ensures k <= |rows| && Insert(rows, row) == rows[..k] + [row] + rows[k..]
    ensures forall i :: 0 <= i < |rows| ==> (rows[i].createdAt < row.createdAt <==> i < k)
    decreases |rows|
  {
    var n := |rows|;
    if n == 0 || rows[n - 1].createdAt < row.createdAt {
      k := n;
      assert rows[..n] + [row] + rows[n..] == rows + [row];
    } else {
      k := InsertPosition(rows[..n - 1], row);
      assert rows[..n - 1][..k] == rows[..k];
      assert rows[..n - 1][k..] + [rows[n - 1]] == rows[k..];
      assert forall i :: 0 <= i < n - 1 ==> rows[..n - 1][i] == rows[i];
    }
  }

  lemma ChainOfPrefix<D>(c: Codec<D>, rows: seq<Row<D>>, more: seq<Row<D>>)
    ensures Chained(c, rows + more) ==> Chained(c, rows)
  {
    if Chained(c, rows + more) {
      forall i | 0 <= i < |rows|
        ensures FitsAt(c, rows, i)
      {
        assert FitsAt(c, rows + more, i);
        assert (rows + more)[..i] == rows[..i];
      }
    }
  }

  lemma ChainExtendsIff<D>(c: Codec<D>, rows: seq<Row<D>>, row: Row<D>)
    ensures Chained(c, rows + [row]) <==> Chained(c, rows) && Fits(c, LastHash(rows), row)
  {
    var all := rows + [row];
    assert all[..|rows|] == rows;
    ChainOfPrefix(c, rows, [row]);
    if Chained(c, all) {
      assert FitsAt(c, all, |rows|);
    } else if Chained(c, rows) && Fits(c, LastHash(rows), row) {
      forall i | 0 <= i < |all|
        ensures FitsAt(c, all, i)
      {
        if i < |rows| {
          assert FitsAt(c, rows, i);
          assert all[..i] == rows[..i];
        }
      }
    }
  }

  /** A record keeps a passing ledger passing exactly when its detail is hashed the way it is read back, which
      `None` never is unless the empty detail is shown as "None", and the clock is past the latest row. */
  lemma RecordKeepsChainIff<D(!new)>(c: Codec<D>, rows: seq<Row<D>>, e: Entry<D>, now: int)
    requires GoodDigest(c) && Chained(c, rows) && Clean(rows) && InTimeOrder(rows)
             && NoBars(e.actor, e.action, e.resource)
    requires forall i :: 0 <= i < |rows| ==> rows[i].createdAt != now
    requires RowsApart(c, rows, rows) && forall i :: 0 <= i <= |rows| ==> RecordApart(c, rows, e, LastHash(rows[..i]))
    ensures Chained(c, Recorded(c, rows, e, now))
      <==> ShownAsStored(c, e) && (rows == [] || rows[|rows| - 1].createdAt < now)
  {
    hide GoodDigest, Fits, Apart, RowsApart, RecordApart, NoBars, ShownAsStored;
    var row, n := NewRow(c, rows, e, now), |rows|;
    var k := InsertPosition(rows, row);
    assert rows[..n] == rows;
    HashesAreGood(c, rows, k);
    HashesAreGood(c, rows, n);
    NewRowFitsIff(c, rows, e, now, LastHash(rows[..k]));
    ChainExtendsIff(c, rows[..k], row);
    ChainOfPrefix(c, rows[..k], rows[k..]);
    assert rows[..k] + rows[k..] == rows;
    if k == n {
      assert rows[..k] + [row] + rows[k..] == rows[..k] + [row];
    } else {
      if LastHash(rows[..k]) == LastHash(rows) {
        HashDeterminesHistory(c, rows, rows, k, n);
      }
      ChainOfPrefix(c, rows[..k] + [row], rows[k..]);
    }
  }

  /** The ledger that a run of records builds. */
  function Built<D>(c: Codec<D>, es: seq<(Entry<D>, int)>): seq<Row<D>> {
    if es == [] then []
    else
      var n := |es| - 1;
      Recorded(c, Built(c, es[..n]), es[n].0, es[n].1)
  }

  predicate AtIncreasingTimes<D>(es: seq<(Entry<D>, int)>) {
    forall i, j :: 0 <= i < j < |es| ==> es[i].1 < es[j].1
  }

  predicate EntriesWithoutBars<D>(es: seq<(Entry<D>, int)>) {
    forall i :: 0 <= i < |es| ==> NoBars(es[i].0.actor, es[i].0.action, es[i].0.resource)
  }

  predicate AllShownAsStored<D>(c: Codec<D>, es: seq<(Entry<D>, int)>) {
    forall i :: 0 <= i < |es| ==> ShownAsStored(c, es[i].0)
  }

  lemma RecordAtTheEndIff<D(!new)>(c: Codec<D>, rows: seq<Row<D>>, e: Entry<D>, now: int)
    requires GoodDigest(c) && NoBars(e.actor, e.action, e.resource) && RecordApart(c, rows, e, LastHash(rows))
    requires rows == [] || rows[|rows| - 1].createdAt < now
    ensures Chained(c, Recorded(c, rows, e, now)) <==> Chained(c, rows) && ShownAsStored(c, e)
  {
    ChainExtendsIff(c, rows, NewRow(c, rows, e, now));
    if Chained(c, rows) {
      HashesAreGood(c, rows, |rows|);
      assert rows[..|rows|] == rows;
      NewRowFitsIff(c, rows, e, now, LastHash(rows));
    }
  }

  /** No record of the run has a text that collides with the one verification hashes in its place. */
  predicate RecordsApart<D>(c: Codec<D>, es: seq<(Entry<D>, int)>) {
    forall i :: 0 <= i < |es| ==> RecordApart(c, Built(c, es[..i]), es[i].0, LastHash(Built(c, es[..i])))
  }

  lemma {:induction false} BuiltInOrder<D>(c: Codec<D>, es: seq<(Entry<D>, int)>)
    requires AtIncreasingTimes(es)
    ensures |Built(c, es)| == |es| && (es != [] ==> Built(c, es)[|es| - 1].createdAt == es[|es| - 1].1)
    decreases |es|
  {
    if es != [] {
      BuiltInOrder(c, es[..|es| - 1]);
    }
  }

  /** Over any run of records at increasing times, the ledger passes verification if and only if every detail of
      the run is hashed the way it is read back. */
  lemma {:induction false} BuiltLedgerPassesIff<D(!new)>(c: Codec<D>, es: seq<(Entry<D>, int)>)
    requires GoodDigest(c) && EntriesWithoutBars(es) && AtIncreasingTimes(es) && RecordsApart(c, es)
    ensures Chained(c, Built(c, es)) <==> AllShownAsStored(c, es)
    decreases |es|
  {
    hide GoodDigest, Recorded, Chained, ShownAsStored, RecordApart, RecordsApart;
    if es != [] {
      var n := |es| - 1;
      BuiltInOrder(c, es[..n]);
      EarlierRecordsApart(c, es);
      BuiltLedgerPassesIff(c, es[..n]);
      RecordAtTheEndIff(c, Built(c, es[..n]), es[n].0, es[n].1);
      assert AllShownAsStored(c, es) <==> AllShownAsStored(c, es[..n]) && ShownAsStored(c, es[n].0);
    } else {
      NothingIsChained(c);
    }
  }

  lemma EarlierRecordsApart<D>(c: Codec<D>, es: seq<(Entry<D>, int)>)
    requires RecordsApart(c, es) && es != []
    ensures var n := |es| - 1;
            RecordsApart(c, es[..n]) && RecordApart(c, Built(c, es[..n]), es[n].0, LastHash(Built(c, es[..n])))
  {
    hide RecordApart, Built, LastHash;
    var n := |es| - 1;
    forall i | 0 <= i < n
      ensures RecordApart(c, Built(c, es[..n][..i]), es[..n][i].0, LastHash(Built(c, es[..n][..i])))
    {
      assert es[..n][..i] == es[..i];
    }
  }

  lemma NothingIsChained<D>(c: Codec<D>)
    ensures Chained(c, [])
  {
  }

  /** The failing case: `None` is hashed as "None", and what is stored for it reads back as "{}". */
  lemma NoneDetailBreaksTheChain<D(!new)>(c: Codec<D>, rows: seq<Row<D>>, actor: string, action: string,
                                          resource: string, now: int)
    requires GoodDigest(c) && NoBars(actor, action, resource) && c.show(c.reload(c.empty)) == "{}"
    requires rows == [] || rows[|rows| - 1].createdAt < now
    requires RecordApart(c, rows, Entry(actor, action, resource, None), LastHash(rows))
    ensures !Chained(c, Recorded(c, rows, Entry(actor, action, resource, None), now))
  {
    RecordAtTheEndIff(c, rows, Entry(actor, action, resource, None), now);
  }
}
