/** Directories as the files they are (fs.c:508-562, sysfile.c:201-218): dirlookup, dirlink and the removal
    in unlink read and write 16-byte entries through readi and writei. */
module DirFile {
  import opened Common
  import opened FsLayout
  import opened FsState
  import opened FsAlloc
  import opened FsBytes
  import opened FsLogBound
  import opened FsWrite
  import opened Fs
  import opened Directory

  const DIRENT := 16

  // ---- Entries as bytes ----------------------------------------------------------------------

  /** An entry: a little-endian inode number and the name field. */
  function Decode(e: seq<byte>): (de: Dirent)
    requires |e| == DIRENT
    ensures de.inum < TWO16 && FieldOk(de.name)
  {
    var low, high: int := e[0], e[1];
    Dirent(low + 256 * high, seq(DIRSIZ, j requires 0 <= j < DIRSIZ => e[2 + j] as char))
  }

  function Encode(de: Dirent): (e: seq<byte>)
    requires de.inum < TWO16 && FieldOk(de.name) && Octets(de.name)
    ensures |e| == DIRENT
  {
    [de.inum % 256, de.inum / 256] + seq(DIRSIZ, j requires 0 <= j < DIRSIZ => de.name[j] as int)
  }

  lemma DecodeEncode(de: Dirent)
    requires de.inum < TWO16 && FieldOk(de.name) && Octets(de.name)
    ensures Decode(Encode(de)) == de
  {
    var e := Encode(de);
    assert Decode(e).name == de.name;
  }

  /** The bytes of entry k of a file. */
  function EntryBytes(f: seq<byte>, k: nat): (e: seq<byte>)
    requires DIRENT * k + DIRENT <= |f|
    ensures |e| == DIRENT
  {
    f[DIRENT * k..DIRENT * k + DIRENT]
  }

  /** The entries of a directory file. */
  function Entries(f: seq<byte>): (es: seq<Dirent>)
    ensures |es| == |f| / DIRENT && forall k :: 0 <= k < |es| ==> es[k] == Decode(EntryBytes(f, k))
    ensures EntriesOk(es)
  {
    seq(|f| / DIRENT, k requires 0 <= k < |f| / DIRENT => Decode(EntryBytes(f, k)))
  }

  /** A file holds a directory with contents m. */
  ghost predicate DirOk(f: seq<byte>, m: map<string, nat>) {
    |f| % DIRENT == 0 && Unique(Entries(f)) && Means(Entries(f), m)
  }

  /** Writing an entry over an old one, or behind the last, is an update of the entries. */
  lemma EntriesSplice(f: seq<byte>, k: nat, de: Dirent)
    requires |f| % DIRENT == 0 && k <= |f| / DIRENT && de.inum < TWO16 && FieldOk(de.name) && Octets(de.name)
    ensures var g := Splice(f, DIRENT * k, Encode(de));
      && |g| % DIRENT == 0
      && Entries(g) == if k < |f| / DIRENT then Entries(f)[k := de] else Entries(f) + [de]
  {
    hide Decode, Encode;
    var g := Splice(f, DIRENT * k, Encode(de));
    assert EntryBytes(g, k) == Encode(de);
    DecodeEncode(de);
    forall i: nat | i < |f| / DIRENT && i != k ensures EntryBytes(g, i) == EntryBytes(f, i) {
      SpliceApart(f, k, i, Encode(de));
    }
  }

  lemma SpliceApart(f: seq<byte>, k: nat, i: nat, e: seq<byte>)
    requires |f| % DIRENT == 0 && k <= |f| / DIRENT && i < |f| / DIRENT && i != k && |e| == DIRENT
    ensures EntryBytes(Splice(f, DIRENT * k, e), i) == EntryBytes(f, i)
  {
  }

  // ---- Operations ----------------------------------------------------------------------------

  /** The kernel's panics are results: NotDir, NoLink, and Torn for a read or write of less than an entry. */
  datatype DirResult = Found(inum: nat, off: nat) | Absent | Done | Exists | NotDir | Torn | NoLink | NotEmpty

  /** One entry read through readi. */
  method ReadEntry(fs: Fs, dp: nat, off: nat) returns (ok: bool, de: Dirent)
    requires fs.Valid() && dp < |fs.inodes| && fs.inodes[dp].kind == T_DIR && off % DIRENT == 0 && off < fs.inodes[dp].size
    modifies fs`disk, fs`inodes, fs`tab, fs`owner, fs`logged
    ensures fs.Valid() && fs.Now() == old(fs.Now())
    ensures ok <==> off + DIRENT <= |fs.File(dp)|
    ensures ok ==> de == Entries(fs.File(dp))[off / DIRENT]
  {
    hide FsOk, Bytes, Decode;
    SizeBound(fs, dp);
    var r, bytes := fs.Readi(dp, off, DIRENT);
    ok, de := r == Count(DIRENT), Dirent(0, []);
    if ok {
      assert bytes == EntryBytes(fs.File(dp), off / DIRENT);
      de := Decode(bytes);
    }
  }

  lemma SizeBound(fs: Fs, dp: nat)
    requires fs.Valid() && dp < |fs.inodes|
    ensures fs.inodes[dp].size <= MAXFILE * BSIZE && |fs.File(dp)| == fs.inodes[dp].size
  {
  }

  /** dirlookup: the first entry in use with the name. */
  method Dirlookup(fs: Fs, dp: nat, name: string, ghost m: map<string, nat>) returns (r: DirResult)
    requires fs.Valid() && dp < |fs.inodes| && NoNul(name) && DirOk(fs.File(dp), m)
    modifies fs`disk, fs`inodes, fs`tab, fs`owner, fs`logged
    ensures fs.Valid() && fs.Now() == old(fs.Now())
    ensures r.NotDir? <==> fs.inodes[dp].kind != T_DIR
    ensures r.NotDir? || r.Absent? || r.Found?
    ensures r.Absent? ==> Key(name) !in m
    ensures r.Found? ==> Key(name) in m && r.inum == m[Key(name)] && r.inum != 0 && r.off % DIRENT == 0
    ensures r.Found? ==> Names(Entries(fs.File(dp)), r.off / DIRENT, Key(name))
  {
    hide FsOk, Bytes, Entries, FieldName, Key, Unique, Means;
    if fs.inodes[dp].kind != T_DIR { return NotDir; }
    SizeBound(fs, dp);
    ghost var before := fs.File(dp);
    Somewhere(Entries(before), m, Key(name));
    var off := 0;
    while off < fs.inodes[dp].size
      invariant fs.Valid() && fs.Now() == old(fs.Now()) && off % DIRENT == 0 && off <= fs.inodes[dp].size
      invariant forall i: nat :: i < off / DIRENT ==> !Names(Entries(fs.File(dp)), i, Key(name))
    {
      var ok, de := ReadEntry(fs, dp, off);
      if !ok { return Torn; }
      if de.inum != 0 {
        var same := Namecmp(name, de.name);
        if same { return Found(de.inum, off); }
      }
      off := off + DIRENT;
    }
    assert fs.File(dp) == before;
    assert off == |before| && off / DIRENT == |Entries(before)|;
    forall i: nat ensures !Names(Entries(before), i, Key(name)) {}
    r := Absent;
  }

  /** dirlink's search: the first entry not in use, or the end. */
  method FreeSlot(fs: Fs, dp: nat) returns (ok: bool, off: nat)
    requires fs.Valid() && dp < |fs.inodes| && fs.inodes[dp].kind == T_DIR && |fs.File(dp)| % DIRENT == 0
    modifies fs`disk, fs`inodes, fs`tab, fs`owner, fs`logged
    ensures fs.Valid() && fs.Now() == old(fs.Now())
    ensures ok && off % DIRENT == 0 && off <= |fs.File(dp)|
    ensures off < |fs.File(dp)| ==> Entries(fs.File(dp))[off / DIRENT].inum == 0
    ensures off == |fs.File(dp)| <==> AllUsed(Entries(fs.File(dp)))
  {
    hide FsOk, Bytes, Entries;
    SizeBound(fs, dp);
    ghost var before := fs.File(dp);
    off := 0;
    while off < fs.inodes[dp].size
      invariant fs.Valid() && fs.Now() == old(fs.Now()) && off % DIRENT == 0 && off <= fs.inodes[dp].size
      invariant forall k :: 0 <= k < off / DIRENT ==> Entries(before)[k].inum != 0
    {
      var some, de := ReadEntry(fs, dp, off);
      if !some { return false, off; }
      if de.inum == 0 { break; }
      off := off + DIRENT;
    }
    ok := true;
  }

  /** Entry k of the directory replaced, or one added behind the last. */
  function WithEntry(es: seq<Dirent>, k: nat, de: Dirent): (r: seq<Dirent>)
    requires k <= |es|
  {
    if k < |es| then es[k := de] else es + [de]
  }

  /** A directory cannot be extended by an entry: it has the largest size, or too few blocks are free. */
  ghost predicate NoRoom(fs: Fs, dp: nat)
    reads fs
    requires fs.Valid() && dp < |fs.inodes|
  {
    |fs.File(dp)| == MAXFILE * BSIZE || TooFew(fs.l, fs.Now(), dp, |fs.File(dp)|, DIRENT)
  }

  /** What writei's result says about the entries. */
  lemma EntryDone(l: Layout, v: View, u: View, dp: nat, off: nat, de: Dirent)
    requires Ok(l, v) && dp < |v.inodes| && off <= v.inodes[dp].size && de.inum < TWO16 && FieldOk(de.name) && Octets(de.name)
    requires WriteDone(l, v, u, dp, Encode(de), off) && v.inodes[dp].size % DIRENT == 0 && off % DIRENT == 0
    ensures Ok(l, u) && |u.inodes| == |v.inodes| && |Bytes(l, u, dp)| % DIRENT == 0
    ensures Entries(Bytes(l, u, dp)) == WithEntry(Entries(Bytes(l, v, dp)), off / DIRENT, de)
    ensures forall i: nat :: i < |u.inodes| && i != dp ==> Bytes(l, u, i) == Bytes(l, v, i) && u.inodes[i] == v.inodes[i]
    ensures u.inodes[dp].kind == v.inodes[dp].kind && u.inodes[dp].nlink == v.inodes[dp].nlink
  {
    hide Ok, Bytes, Entries, Encode, Splice, Touched, CountOk, AllSnug, Octets, FieldOk, UseAt;
    EntriesSplice(Bytes(l, v, dp), off / DIRENT, de);
    assert DIRENT * (off / DIRENT) == off;
  }

  /** When writei of one entry fails. */
  lemma EntryFails(l: Layout, v: View, dp: nat, off: nat)
    requires dp < |v.inodes| && off <= v.inodes[dp].size <= MAXFILE * BSIZE && v.inodes[dp].size % DIRENT == 0 && off % DIRENT == 0
    ensures var n := v.inodes[dp].size;
      off + DIRENT > MAXFILE * BSIZE || TooFew(l, v, dp, off, DIRENT) <==>
      off == n && (n == MAXFILE * BSIZE || TooFew(l, v, dp, n, DIRENT))
  {
    hide BlocksTaken;
    assert MAXFILE * BSIZE % DIRENT == 0;
  }

  /** One entry written through writei. It fails exactly when it is to extend a directory that cannot be. */
  method WriteEntry(fs: Fs, dp: nat, off: nat, de: Dirent) returns (ok: bool)
    requires fs.Valid() && fs.Settled() && dp < |fs.inodes| && fs.inodes[dp].kind == T_DIR
    requires |fs.File(dp)| % DIRENT == 0 && off % DIRENT == 0 && off <= |fs.File(dp)|
    requires de.inum < TWO16 && FieldOk(de.name) && Octets(de.name)
    modifies fs`disk, fs`inodes, fs`dinodes, fs`tab, fs`owner, fs`logged
    ensures ok ==> fs.Valid() && fs.Settled() && |fs.inodes| == old(|fs.inodes|) && |fs.File(dp)| % DIRENT == 0
    ensures ok ==> Entries(fs.File(dp)) == WithEntry(old(Entries(fs.File(dp))), off / DIRENT, de)
    ensures ok ==> forall i: nat :: i < |fs.inodes| && i != dp ==> fs.File(i) == old(fs.File(i)) && fs.inodes[i] == old(fs.inodes[i])
    ensures ok ==> fs.inodes[dp].kind == T_DIR && fs.inodes[dp].nlink == old(fs.inodes[dp].nlink)
    ensures !ok <==> off == old(|fs.File(dp)|) && old(NoRoom(fs, dp))
  {
    hide FsOk, Bytes, Entries, Encode, AllSnug, Octets, FieldOk, TooFew, WriteDone, WithEntry;
    SizeBound(fs, dp);
    ghost var v := fs.Now();
    EntryFails(fs.l, v, dp, off);
    var w := fs.Writei(dp, Encode(de), off);
    ok := w == Count(DIRENT);
    if ok { EntryDone(fs.l, v, fs.Now(), dp, off, de); }
  }

  /** Every entry is in use. */
  predicate AllUsed(es: seq<Dirent>) {
    forall k :: 0 <= k < |es| ==> es[k].inum != 0
  }

  /** dirlink: the name is added unless it is there; the inode number is cut to 16 bits. It panics exactly when
      every entry is in use and the directory cannot be extended. */
  method Dirlink(fs: Fs, dp: nat, name: string, inum: nat, ghost m: map<string, nat>) returns (r: DirResult)
    requires fs.Valid() && fs.Settled() && dp < |fs.inodes| && NoNul(name) && Octets(name) && DirOk(fs.File(dp), m)
    modifies fs`disk, fs`inodes, fs`dinodes, fs`tab, fs`owner, fs`logged
    ensures r.NotDir? || r.Exists? || r.Done? || r.Torn?
    ensures r.NotDir? <==> old(fs.inodes[dp]).kind != T_DIR
    ensures r.Exists? <==> old(fs.inodes[dp]).kind == T_DIR && Key(name) in m
    ensures r.NotDir? || r.Exists? ==> fs.Now() == old(fs.Now()) && fs.dinodes == old(fs.dinodes)
    ensures r.Done? ==>
      && fs.Valid() && fs.Settled() && |fs.inodes| == old(|fs.inodes|)
      && DirOk(fs.File(dp), if inum % TWO16 == 0 then m else m[Key(name) := inum % TWO16])
      && forall i: nat :: i < |fs.inodes| && i != dp ==> fs.File(i) == old(fs.File(i))
    ensures r.Torn? <==> !r.NotDir? && !r.Exists? && AllUsed(Entries(old(fs.File(dp)))) && old(NoRoom(fs, dp))
  {
    hide FsOk, Bytes, Entries, Unique, Means, Key, ToField, WithEntry, Bit, NoRoom, AllSnug;
    r := Dirlookup(fs, dp, name, m);
    if r.NotDir? { return; }
    if r.Found? { return Exists; }
    var _, off := FreeSlot(fs, dp);
    var field := CopyName(name);
    var de := Dirent(inum % TWO16, field);
    OctetField(name);
    SizeBound(fs, dp);
    EntryAdded(Entries(fs.File(dp)), m, off / DIRENT, de, name);
    var ok := WriteEntry(fs, dp, off, de);
    r := if ok then Done else Torn;
  }

  lemma EntryAdded(es: seq<Dirent>, m: map<string, nat>, k: nat, de: Dirent, name: string)
    requires EntriesOk(es) && Unique(es) && Means(es, m) && k <= |es| && (k < |es| ==> es[k].inum == 0)
    requires NoNul(name) && Key(name) !in m && de.inum < TWO16 && de.name == ToField(name)
    ensures Unique(WithEntry(es, k, de)) && Means(WithEntry(es, k, de), if de.inum == 0 then m else m[Key(name) := de.inum])
  {
    hide Unique, Means;
    FieldRoundTrip(name);
    AddEntry(es, m, k, de, Key(name));
  }

  /** No entry after the first two is in use. */
  predicate NoMore(es: seq<Dirent>) {
    forall k :: 2 <= k < |es| ==> es[k].inum == 0
  }

  /** isdirempty. */
  method Isdirempty(fs: Fs, dp: nat) returns (empty: bool)
    requires fs.Valid() && dp < |fs.inodes| && fs.inodes[dp].kind == T_DIR && |fs.File(dp)| % DIRENT == 0
    modifies fs`disk, fs`inodes, fs`tab, fs`owner, fs`logged
    ensures fs.Valid() && fs.Now() == old(fs.Now())
    ensures empty <==> NoMore(Entries(fs.File(dp)))
  {
    hide FsOk, Bytes, Entries;
    SizeBound(fs, dp);
    ghost var before := fs.File(dp);
    var off := 2 * DIRENT;
    while off < fs.inodes[dp].size
      invariant fs.Valid() && fs.Now() == old(fs.Now()) && off % DIRENT == 0 && 2 * DIRENT <= off
      invariant forall k :: 2 <= k < off / DIRENT && k < |Entries(before)| ==> Entries(before)[k].inum == 0
      decreases fs.inodes[dp].size - off
    {
      var ok, de := ReadEntry(fs, dp, off);
      assert ok;
      if de.inum != 0 { return false; }
      off := off + DIRENT;
    }
    empty := true;
  }

  /** A directory whose first entries are "." and ".." is empty in this sense exactly if it has no other name. */
  lemma EmptyMeans(es: seq<Dirent>, m: map<string, nat>)
    requires EntriesOk(es) && Unique(es) && Means(es, m) && Names(es, 0, ".") && Names(es, 1, "..")
    ensures NoMore(es) <==> m.Keys == {".", ".."}
  {
    assert "." in m && ".." in m;
    if NoMore(es) {
      forall name | name in m ensures name in {".", ".."} {
        var k: nat :| Names(es, k, name);
        assert k < 2;
      }
    } else {
      var k :| 2 <= k < |es| && es[k].inum != 0;
      var name := FieldName(es[k].name);
      assert Names(es, k, name);
    }
  }

  /** unlink in the directory dp: the name's entry is zeroed and the link counts go down, unless it is "." or
      "..", is not there, or names a directory that is not empty. */
  method Unlink(fs: Fs, dp: nat, name: string, ghost m: map<string, nat>) returns (r: DirResult)
    requires fs.Valid() && fs.Settled() && dp < |fs.inodes| && fs.inodes[dp].kind == T_DIR
    requires NoNul(name) && DirOk(fs.File(dp), m)
    requires forall k :: k in m ==> m[k] < |fs.inodes| && (k != "." && k != ".." ==> m[k] != dp)
    requires forall i: nat :: i < |fs.inodes| && fs.inodes[i].kind == T_DIR ==> |fs.File(i)| % DIRENT == 0
    modifies fs`disk, fs`inodes, fs`dinodes, fs`tab, fs`owner, fs`logged
    ensures r.Done? || r.Absent? || r.NoLink? || r.NotEmpty?
    ensures r.Absent? <==> Key(name) !in m || Key(name) == "." || Key(name) == ".."
    ensures r.NoLink? <==> !r.Absent? && old(fs.inodes[m[Key(name)]]).nlink < 1
    ensures r.NotEmpty? <==> !r.Absent? && !r.NoLink? && old(fs.inodes[m[Key(name)]]).kind == T_DIR
                             && !NoMore(Entries(old(fs.File(m[Key(name)]))))
    ensures r.Absent? || r.NoLink? || r.NotEmpty? ==> fs.Now() == old(fs.Now()) && fs.dinodes == old(fs.dinodes)
    ensures r.Done? ==>
      && fs.Valid() && fs.Settled() && |fs.inodes| == old(|fs.inodes|) && DirOk(fs.File(dp), m - {Key(name)})
      && (forall i: nat :: i < |fs.inodes| && i != dp ==> fs.File(i) == old(fs.File(i)))
      && var ip := m[Key(name)];
         && fs.inodes[ip] == old(fs.inodes[ip]).(nlink := old(fs.inodes[ip]).nlink - 1) && fs.inodes[dp].kind == T_DIR
         && fs.inodes[dp].nlink == old(fs.inodes[dp]).nlink - (if old(fs.inodes[ip]).kind == T_DIR then 1 else 0)
         && forall i: nat :: i < |fs.inodes| && i != dp && i != ip ==> fs.inodes[i] == old(fs.inodes[i])
  {
    hide FsOk, Bytes, Entries, Unique, Means, Key, ToField, FieldName, WithEntry, Bit, AllSnug, NoMore, NoRoom;
    DotFields();
    var dot := Namecmp(name, ToField("."));
    var dotdot := Namecmp(name, ToField(".."));
    if dot || dotdot { return Absent; }
    r := Dirlookup(fs, dp, name, m);
    if r.Absent? { return; }
    var ip := r.inum;
    if fs.inodes[ip].nlink < 1 { return NoLink; }
    if fs.inodes[ip].kind == T_DIR {
      var empty := Isdirempty(fs, ip);
      if !empty { return NotEmpty; }
    }
    SizeBound(fs, dp);
    EntryRemoved(Entries(fs.File(dp)), m, r.off / DIRENT, Key(name));
    var ok := WriteEntry(fs, dp, r.off, Dirent(0, seq(DIRSIZ, _ => NUL)));
    if !ok { return Torn; }
    if fs.inodes[ip].kind == T_DIR { fs.SetInode(dp, T_DIR, fs.inodes[dp].nlink - 1); }
    fs.SetInode(ip, fs.inodes[ip].kind, fs.inodes[ip].nlink - 1);
    r := Done;
  }

  lemma DotFields()
    ensures FieldName(ToField(".")) == "." && FieldName(ToField("..")) == ".."
  {
    FieldRoundTrip(".");
    FieldRoundTrip("..");
  }

  lemma EntryRemoved(es: seq<Dirent>, m: map<string, nat>, k: nat, name: string)
    requires EntriesOk(es) && Unique(es) && Means(es, m) && Names(es, k, name)
    ensures var r := WithEntry(es, k, Dirent(0, seq(DIRSIZ, _ => NUL))); Unique(r) && Means(r, m - {name})
  {
    hide Unique, Means;
    RemoveEntry(es, m, k, name);
  }

  lemma OctetField(name: string)
    requires Octets(name)
    ensures Octets(ToField(name)) && FieldOk(ToField(name))
  {
  }
}
