/** What the sealed vault keeps on disk: the primary volume and its mirrors as trees of snapshot
    directories, the naming of object files, and the text form of an object. */
module VaultFiles {
  import opened Common

  const MANIFEST := "manifest.json"
  const PROBE := ".cv-mirror-writable"
  const MAX_NAME_BYTES := 200

  /** An object as it arrives in an ingest command. */
  datatype Obj = Obj(objectId: string, plaintextBytes: int, chunked: bool, parts: seq<string>, body: string)

  /** The outside functions the store relies on: JSON printing and parsing, and SHA-256 in hex. */
  datatype Codec = Codec(dump: Obj -> Bytes, load: Bytes -> Option<Obj>, sha: string -> string)

  /** JSON text of an object parses back to it, and no proper prefix of that text parses. */
  ghost predicate Lawful(c: Codec) {
    && (forall o :: c.load(c.dump(o)) == Some(o))
    && (forall o, k: nat {:trigger c.dump(o)[..k]} :: k < |c.dump(o)| ==> c.load(c.dump(o)[..k]) == None)
  }

  function Utf8Length(s: string): nat {
    if s == "" then 0
    else (var n := s[0] as int;
          if n < 0x80 then 1 else if n < 0x800 then 2 else if n < 0x10000 then 3 else 4) + Utf8Length(s[1..])
  }

  /** An id that can be used as a file name as it stands. */
  predicate IsClean(id: string) {
    '/' !in id && '\0' !in id && Utf8Length(id) <= MAX_NAME_BYTES
  }

  function SafeName(c: Codec, id: string): string {
    if IsClean(id) then id else "h_" + c.sha(id)
  }

  /** A digest as it is written: 64 hexadecimal characters. */
  predicate IsHexDigest(d: string) {
    |d| == 64 && forall i :: 0 <= i < 64 ==> '0' <= d[i] <= '9' || 'a' <= d[i] <= 'f'
  }

  /** How many characters `k` bytes can tell apart: seven bits in one byte, and in more the bits that are left beside
      the marks of the first and the following bytes. */
  function Utf8Capacity(k: nat): int {
    if k == 1 then 0x80 else Power2(5 * k + 1)
  }

  function Power2(n: nat): int {
    if n == 0 then 1 else 2 * Power2(n - 1)
  }

  /** Every character takes as few bytes as can hold it, and a text those of its characters. */
  lemma {:induction false} Utf8LengthIs(c: char, a: string, b: string)
    ensures Utf8Length(a + b) == Utf8Length(a) + Utf8Length(b)
    ensures var k := Utf8Length([c]); 1 <= k <= 4 && c as int < Utf8Capacity(k)
                                      && forall j :: 1 <= j < k ==> c as int >= Utf8Capacity(j)
    decreases |a|
  {
    assert [c][1..] == "";
    SmallPowers();
    if a == "" {
      assert a + b == b;
    } else {
      assert (a + b)[1..] == a[1..] + b;
      Utf8LengthIs(c, a[1..], b);
    }
  }

  lemma SmallPowers()
    ensures Power2(11) == 0x800 && Power2(16) == 0x10000 && Power2(21) == 0x20_0000
  {
    assert Power2(6) == 64;
    assert Power2(11) == 32 * Power2(6);
    assert Power2(16) == 32 * Power2(11);
    assert Power2(21) == 32 * Power2(16);
  }

  /** The mapping from ids to file names yields a usable file name: the id itself as long as it has no separator and at
      most 200 bytes, else its hashed name. Two ids whose digests do not collide share one exactly when one is, letter
      for letter, the hashed name of the other. */
  lemma SafeNameIsUsableAndAlmostInjective(c: Codec, a: string, b: string)
    requires IsHexDigest(c.sha(a)) && IsHexDigest(c.sha(b))
    requires c.sha(a) == c.sha(b) ==> a == b
    ensures IsClean(SafeName(c, a))
    ensures SafeName(c, a) == if '/' in a || '\0' in a || Utf8Length(a) > 200 then "h_" + c.sha(a) else a
    ensures a != b ==> (SafeName(c, a) == SafeName(c, b) <==>
                        (IsClean(a) && !IsClean(b) && a == "h_" + c.sha(b)) ||
                        (IsClean(b) && !IsClean(a) && b == "h_" + c.sha(a)))
  {
    AsciiLength("h_" + c.sha(a));
    AsciiLength("h_" + c.sha(b));
    assert ("h_" + c.sha(a))[2..] == c.sha(a);
    assert ("h_" + c.sha(b))[2..] == c.sha(b);
  }

  lemma {:induction false} AsciiLength(s: string)
    requires forall i :: 0 <= i < |s| ==> s[i] as int < 0x80
    ensures Utf8Length(s) == |s|
  {
    if s != "" {
      AsciiLength(s[1..]);
    }
  }

  /** Names that resolve to a directory, so that a file of that name always appears to exist. */
  predicate IsDirName(name: string) {
    name == "" || name == "." || name == ".."
  }

  /** The name has the suffix `.tmp` (a bare ".tmp" is a stem without a suffix). */
  predicate IsTmp(name: string) {
    |name| > 4 && name[|name| - 4..] == ".tmp"
  }

  lemma IsTmpIff(name: string)
    ensures IsTmp(name) <==> exists stem :: stem != "" && name == stem + ".tmp"
  {
    if IsTmp(name) {
      assert name == name[..|name| - 4] + ".tmp";
    }
  }

  function TmpName(name: string): string {
    name + ".tmp"
  }

  datatype Path = Path(snap: string, name: string)

  function TmpOf(p: Path): Path {
    Path(p.snap, TmpName(p.name))
  }

  lemma TmpOfIsTmp(p: Path)
    requires p.name != ""
    ensures IsTmp(TmpOf(p).name) && !IsDirName(TmpOf(p).name)
  {
  }

  lemma TmpOfDiffers(p: Path)
    ensures TmpOf(p) != p
  {
    assert |TmpOf(p).name| == |p.name| + 4;
  }

  /** One volume: the plain files at its top level, its snapshot directories and the files in them.
      A volume that is not there is empty. */
  datatype Tree = Tree(present: bool, dirs: set<string>, tops: map<string, Bytes>, files: map<Path, Bytes>)

  ghost predicate ValidTree(t: Tree) {
    && (!t.present ==> t.dirs == {} && t.tops == map[])
    && t.tops.Keys !! t.dirs
    && (forall p :: p in t.files ==> p.snap in t.dirs && !IsDirName(p.name))
  }

  /** The names of the files in directory `snap`. */
  function NamesIn(t: Tree, snap: string): set<string> {
    set p | p in t.files.Keys && p.snap == snap :: p.name
  }

  /** The vault: its primary volume and the mirrors configured for it. */
  datatype Vault = Vault(primary: Tree, mirrors: seq<Tree>)

  ghost predicate ValidVault(v: Vault) {
    ValidTree(v.primary) && forall i :: 0 <= i < |v.mirrors| ==> ValidTree(v.mirrors[i])
  }
}
