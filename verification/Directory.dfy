/** Directories (fs.c:500-562, sysfile.c:205-218): a file of entries, each an inode number and a name
    field of DIRSIZ characters padded with NUL, read as a finite map from names to inode numbers. */
module Directory {
  import opened Common

  const DIRSIZ := 14
  const TWO16 := 0x1_0000

  /** The name field of an entry. */
  type Field = seq<char>

  datatype Dirent = Dirent(inum: nat, name: Field)

  predicate FieldOk(f: Field) {
    |f| == DIRSIZ
  }

  /** The part of a name that directories tell apart. */
  function Key(name: string): (k: string)
    ensures |k| <= DIRSIZ
  {
    if |name| > DIRSIZ then name[..DIRSIZ] else name
  }

  /** The name in a field: everything before the first NUL. */
  function FieldName(f: Field): (s: string)
    ensures |s| <= |f| && s == f[..|s|] && NoNul(s) && (|s| < |f| ==> f[|s|] == NUL)
  {
    if f == [] || f[0] == NUL then [] else [f[0]] + FieldName(f[1..])
  }

  /** A name as a field. */
  function ToField(name: string): (f: Field)
    ensures FieldOk(f)
  {
    var k := Key(name);
    k + seq(DIRSIZ - |k|, _ => NUL)
  }

  lemma {:induction false} FieldNameIs(f: Field, n: nat)
    requires n <= |f| && (forall k :: 0 <= k < n ==> f[k] != NUL) && (n < |f| ==> f[n] == NUL)
    ensures FieldName(f) == f[..n]
    decreases n
  {
    if n > 0 {
      FieldNameIs(f[1..], n - 1);
      assert f[..n] == [f[0]] + f[1..][..n - 1];
    }
  }

  /** Writing a name and reading it back yields its first DIRSIZ characters. */
  lemma FieldRoundTrip(name: string)
    requires NoNul(name)
    ensures FieldName(ToField(name)) == Key(name)
  {
    FieldNameIs(ToField(name), |Key(name)|);
    assert ToField(name)[..|Key(name)|] == Key(name);
  }

  /** namecmp on a name and an entry's field: strncmp over DIRSIZ characters. */
  method Namecmp(name: string, f: Field) returns (same: bool)
    requires NoNul(name) && FieldOk(f)
    ensures same <==> Key(name) == FieldName(f)
  {
    var i := 0;
    while i < DIRSIZ && At(name, i) != NUL && At(name, i) == f[i]
      invariant 0 <= i <= DIRSIZ && i <= |name| && name[..i] == f[..i]
    {
      i := i + 1;
    }
    ghost var g := FieldName(f);
    assert forall k :: 0 <= k < i ==> f[k] == name[k] && f[k] != NUL by {
      forall k | 0 <= k < i ensures f[k] == name[k] { assert f[k] == f[..i][k] && name[k] == name[..i][k]; }
    }
    if i == DIRSIZ {
      FieldNameIs(f, DIRSIZ);
      assert f[..DIRSIZ] == name[..DIRSIZ] == Key(name);
      return true;
    }
    same := At(name, i) == f[i];
    if same {
      FieldNameIs(f, i);
      assert Key(name) == name[..i];
    } else {
      assert |g| >= i;
      if i < |name| { assert Key(name)[i] == name[i] && (|g| > i ==> g[i] == f[i]); }
      else { assert Key(name) == name && |g| > i; }
    }
  }

  /** strncpy into a name field. */
  method CopyName(name: string) returns (f: Field)
    requires NoNul(name)
    ensures f == ToField(name)
  {
    f := [];
    while |f| < DIRSIZ && At(name, |f|) != NUL
      invariant |f| <= DIRSIZ && |f| <= |name| && f == name[..|f|]
    {
      f := f + [At(name, |f|)];
    }
    assert f == Key(name);
    while |f| < DIRSIZ
      invariant |Key(name)| <= |f| <= DIRSIZ && f == Key(name) + seq(|f| - |Key(name)|, _ => NUL)
    {
      f := f + [NUL];
    }
  }

  /** Names are strings of bytes. */
  predicate Octets(s: string) {
    forall k :: 0 <= k < |s| ==> s[k] as int < 256
  }

  // ---- Entries as a map ----------------------------------------------------------------------

  predicate EntriesOk(es: seq<Dirent>) {
    forall i :: 0 <= i < |es| ==> FieldOk(es[i].name) && es[i].inum < TWO16
  }

  /** Entry i is in use and has name k. */
  predicate Names(es: seq<Dirent>, i: nat, k: string) {
    i < |es| && es[i].inum != 0 && FieldName(es[i].name) == k
  }

  /** No two entries in use have the same name. */
  ghost predicate Unique(es: seq<Dirent>) {
    forall i: nat, j: nat, k :: Names(es, i, k) && Names(es, j, k) ==> i == j
  }

  /** The entries in use are the pairs of m. */
  ghost predicate Means(es: seq<Dirent>, m: map<string, nat>) {
    && (forall k :: k in m ==> exists i: nat :: Names(es, i, k))
    && (forall i: nat, k :: Names(es, i, k) ==> k in m && m[k] == es[i].inum)
  }

  lemma AddEntry(es: seq<Dirent>, m: map<string, nat>, off: nat, de: Dirent, k: string)
    requires EntriesOk(es) && Unique(es) && Means(es, m) && FieldOk(de.name) && de.inum < TWO16
    requires FieldName(de.name) == k
    requires off <= |es| && (off < |es| ==> es[off].inum == 0) && k !in m
    ensures var es' := if off < |es| then es[off := de] else es + [de];
      EntriesOk(es') && Unique(es') && Means(es', if de.inum == 0 then m else m[k := de.inum])
  {
    var es' := if off < |es| then es[off := de] else es + [de];
    forall i: nat, x | i != off ensures Names(es', i, x) <==> Names(es, i, x) {}
    forall x ensures Names(es', off, x) <==> de.inum != 0 && x == k {}
    if de.inum != 0 { assert Names(es', off, k); }
    forall x | x in m ensures exists i: nat :: Names(es', i, x) {
      var i: nat :| Names(es, i, x);
      assert Names(es', i, x);
    }
  }

  lemma RemoveEntry(es: seq<Dirent>, m: map<string, nat>, off: nat, k: string)
    requires EntriesOk(es) && Unique(es) && Means(es, m) && Names(es, off, k)
    ensures var es' := es[off := Dirent(0, seq(DIRSIZ, _ => NUL))]; EntriesOk(es') && Unique(es') && Means(es', m - {k})
  {
    var es' := es[off := Dirent(0, seq(DIRSIZ, _ => NUL))];
    forall i: nat, x | i != off ensures Names(es', i, x) <==> Names(es, i, x) {}
    forall x | x in m && x != k ensures exists i: nat :: Names(es', i, x) {
      var i: nat :| Names(es, i, x);
      assert Names(es', i, x);
    }
  }

  /** A name that is nowhere is not in the map, and one that is somewhere is. */
  lemma Somewhere(es: seq<Dirent>, m: map<string, nat>, k: string)
    requires Means(es, m)
    ensures k in m <==> exists i: nat :: Names(es, i, k)
    ensures forall i: nat :: Names(es, i, k) ==> k in m && m[k] == es[i].inum
  {
  }
}
