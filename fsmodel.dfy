/**
 * The abstract filesystem the runner works on: a map from directory path to
 * the entries of that directory, and the meaning of the operations the runner
 * performs on it (POSIX rename, listing sorted by name, the stem of a name).
 */
module FsModel {
  import opened Common

  type Path = string
  type Name = string

  /**
   * A directory entry: a regular file with its text, or anything else
   * (a subdirectory, a socket, ...). The contents of a non-regular entry are
   * not modelled.
   */
  datatype Entry = File(content: string) | Other

  type Dir = map<Name, Entry>

  /** The existing directories, by path. */
  type Tree = map<Path, Dir>

  /** `dir / name`. */
  datatype FilePath = FilePath(dir: Path, name: Name)

  function Lookup(t: Tree, p: FilePath): (e: Option<Entry>)
    ensures e.Some? <==> p.dir in t && p.name in t[p.dir]
  {
    if p.dir in t && p.name in t[p.dir] then Some(t[p.dir][p.name]) else None
  }

  /** The names held by a directory; none when it does not exist. */
  function NamesIn(t: Tree, dir: Path): set<Name> {
    if dir in t then t[dir].Keys else {}
  }

  // ---------------------------------------------------------------------------
  // rename(2)

  /**
   * When `rename(src, dst)` succeeds: the source exists and the target
   * directory exists; a regular file replaces a regular file or takes a free
   * name, any other entry only takes a free name; renaming a path onto itself
   * succeeds and changes nothing.
   */
  predicate CanMove(t: Tree, src: FilePath, dst: FilePath) {
    && Lookup(t, src).Some?
    && dst.dir in t
    && (src == dst ||
        match Lookup(t, dst)
        case None => true
        case Some(there) => t[src.dir][src.name].File? && there.File?)
  }

  /** The tree after a successful rename: the source name is gone, the target holds the source's entry. */
  function Moved(t: Tree, src: FilePath, dst: FilePath): (r: Tree)
    requires CanMove(t, src, dst)
    ensures r.Keys == t.Keys
    ensures Lookup(r, dst) == Lookup(t, src)
    ensures src != dst ==> Lookup(r, src).None?
    ensures forall p {:trigger Lookup(r, p)} | p != src && p != dst :: Lookup(r, p) == Lookup(t, p)
    ensures forall d {:trigger r[d]} | d in t && d != src.dir && d != dst.dir :: r[d] == t[d]
  {
    var e := t[src.dir][src.name];
    var t1 := t[src.dir := t[src.dir] - {src.name}];
    t1[dst.dir := t1[dst.dir][dst.name := e]]
  }

  /** Renaming a path onto itself is a no-op. */
  lemma MovedSelf(t: Tree, p: FilePath)
    requires CanMove(t, p, p)
    ensures Moved(t, p, p) == t
  {
    var r := Moved(t, p, p);
    assert forall d | d in r :: r[d] == t[d] by {
      forall d | d in r ensures r[d] == t[d] {
        assert forall n | n in r[d] :: Lookup(r, FilePath(d, n)) == Lookup(t, FilePath(d, n));
        assert forall n | n in t[d] :: Lookup(r, FilePath(d, n)) == Lookup(t, FilePath(d, n));
      }
    }
  }

  /** The names found in any of the given directories. */
  function NamesAcross(t: Tree, dirs: set<Path>): (names: set<Name>)
    ensures forall d, n | d in dirs && n in NamesIn(t, d) :: n in names
    ensures forall n | n in names :: exists d | d in dirs :: n in NamesIn(t, d)
  {
    set d, n | d in dirs && n in NamesIn(t, d) :: n
  }

  /** A rename between two of the given directories, keeping the name, keeps the names found across them. */
  lemma {:induction false} MovedKeepsNames(t: Tree, src: FilePath, dst: FilePath, dirs: set<Path>)
    requires CanMove(t, src, dst)
    requires src.name == dst.name && src.dir in dirs && dst.dir in dirs
    ensures NamesAcross(Moved(t, src, dst), dirs) == NamesAcross(t, dirs)
  {
    var r := Moved(t, src, dst);
    forall n | n in NamesAcross(r, dirs) ensures n in NamesAcross(t, dirs) {
      var d :| d in dirs && n in NamesIn(r, d);
      var p := FilePath(d, n);
      assert Lookup(r, p).Some?;
      if p == dst {
        assert Lookup(t, src).Some?;
        assert n in NamesIn(t, src.dir);
      } else if p != src {
        assert Lookup(t, p).Some?;
        assert n in NamesIn(t, d);
      }
    }
    forall n | n in NamesAcross(t, dirs) ensures n in NamesAcross(r, dirs) {
      var d :| d in dirs && n in NamesIn(t, d);
      var p := FilePath(d, n);
      assert Lookup(t, p).Some?;
      if p == src || p == dst {
        assert Lookup(r, dst).Some?;
        assert n in NamesIn(r, dst.dir);
      } else {
        assert Lookup(r, p).Some?;
        assert n in NamesIn(r, d);
      }
    }
  }

  /** No name is held by two of the given directories. */
  predicate UniqueIn(t: Tree, dirs: set<Path>) {
    forall d1, d2, n | d1 in dirs && d2 in dirs && n in NamesIn(t, d1) && n in NamesIn(t, d2) :: d1 == d2
  }

  /** A rename between two of the given directories, keeping the name, never puts a name in two of them. */
  lemma {:induction false} MovedKeepsUnique(t: Tree, src: FilePath, dst: FilePath, dirs: set<Path>)
    requires CanMove(t, src, dst) && UniqueIn(t, dirs)
    requires src.name == dst.name && src.dir in dirs && dst.dir in dirs
    ensures UniqueIn(Moved(t, src, dst), dirs)
  {
    var r := Moved(t, src, dst);
    forall d1, d2, n | d1 in dirs && d2 in dirs && n in NamesIn(r, d1) && n in NamesIn(r, d2)
      ensures d1 == d2
    {
      var p1, p2 := FilePath(d1, n), FilePath(d2, n);
      assert Lookup(r, p1).Some? && Lookup(r, p2).Some?;
      // Where each entry was before the rename.
      var o1 := if p1 == dst then src.dir else d1;
      var o2 := if p2 == dst then src.dir else d2;
      assert n in NamesIn(t, o1) by { assert Lookup(t, FilePath(o1, n)).Some?; }
      assert n in NamesIn(t, o2) by { assert Lookup(t, FilePath(o2, n)).Some?; }
      assert o1 == o2;
    }
  }

  /** Trees that agree on the names of the given directories agree on everything said about them here. */
  lemma SameNamesIn(t: Tree, r: Tree, dirs: set<Path>)
    requires forall d | d in dirs :: NamesIn(t, d) == NamesIn(r, d)
    ensures NamesAcross(t, dirs) == NamesAcross(r, dirs)
    ensures UniqueIn(t, dirs) <==> UniqueIn(r, dirs)
  {
    forall n | n in NamesAcross(t, dirs) ensures n in NamesAcross(r, dirs) {
      var d :| d in dirs && n in NamesIn(t, d);
      assert n in NamesIn(r, d);
    }
    forall n | n in NamesAcross(r, dirs) ensures n in NamesAcross(t, dirs) {
      var d :| d in dirs && n in NamesIn(r, d);
      assert n in NamesIn(t, d);
    }
  }

  /** Why rename(2) refuses: a missing source or target directory, or an entry of the wrong kind. */
  datatype OsError = FileNotFound | KindClash

  /** The error rename(src, dst) raises, if any. */
  function RenameError(t: Tree, src: FilePath, dst: FilePath): (err: Option<OsError>)
    ensures err.None? <==> CanMove(t, src, dst)
    ensures err == Some(FileNotFound) <==> Lookup(t, src).None? || dst.dir !in t
  {
    if Lookup(t, src).None? || dst.dir !in t then Some(FileNotFound)
    else if CanMove(t, src, dst) then None
    else Some(KindClash)
  }

  // ---------------------------------------------------------------------------
  // Reading and writing regular files

  /** `path.read_text()`: the text of a regular file; None when it cannot be read. */
  function FileText(t: Tree, p: FilePath): (text: Option<string>)
    ensures text.Some? <==> Lookup(t, p).Some? && Lookup(t, p).value.File?
    ensures text.Some? ==> Lookup(t, p) == Some(File(text.value))
  {
    match Lookup(t, p)
    case Some(File(c)) => Some(c)
    case _ => None
  }

  /** `open(p, "w")` or `open(p, "a")` succeeds: the directory exists and p is not a non-regular entry. */
  predicate CanOpen(t: Tree, p: FilePath) {
    p.dir in t && (p.name !in t[p.dir] || t[p.dir][p.name].File?)
  }

  /** The tree after writing `text` to p with mode "w" (truncating or creating). */
  function Written(t: Tree, p: FilePath, text: string): (r: Tree)
    requires CanOpen(t, p)
    ensures r.Keys == t.Keys
    ensures Lookup(r, p) == Some(File(text))
    ensures forall q {:trigger Lookup(r, q)} | q != p :: Lookup(r, q) == Lookup(t, q)
    ensures forall d {:trigger r[d]} | d in t && d != p.dir :: r[d] == t[d]
  {
    t[p.dir := t[p.dir][p.name := File(text)]]
  }

  /** The tree after writing `text` to p with mode "a": appended to the old text, or a new file. */
  function Appended(t: Tree, p: FilePath, text: string): (r: Tree)
    requires CanOpen(t, p)
    ensures r.Keys == t.Keys
    ensures FileText(t, p).Some? ==> Lookup(r, p) == Some(File(FileText(t, p).value + text))
    ensures FileText(t, p).None? ==> Lookup(r, p) == Some(File(text))
    ensures forall q {:trigger Lookup(r, q)} | q != p :: Lookup(r, q) == Lookup(t, q)
    ensures forall d {:trigger r[d]} | d in t && d != p.dir :: r[d] == t[d]
  {
    var after := if p.name in t[p.dir] then t[p.dir][p.name].content + text else text;
    t[p.dir := t[p.dir][p.name := File(after)]]
  }

  /** `os.remove(p)` succeeds on a regular file; a directory (or any other entry) or a missing name is refused. */
  predicate CanRemove(t: Tree, p: FilePath) {
    FileText(t, p).Some?
  }

  /** The tree after `os.remove(p)`: the name is gone, nothing else changes. */
  function Removed(t: Tree, p: FilePath): (r: Tree)
    requires CanRemove(t, p)
    ensures r.Keys == t.Keys
    ensures Lookup(r, p).None?
    ensures forall q {:trigger Lookup(r, q)} | q != p :: Lookup(r, q) == Lookup(t, q)
    ensures forall d {:trigger r[d]} | d in t && d != p.dir :: r[d] == t[d]
  {
    t[p.dir := t[p.dir] - {p.name}]
  }

  /** Removing a file and then appending to the same path is the same as truncating it and writing. */
  lemma RemoveThenAppend(t: Tree, p: FilePath, text: string)
    requires CanRemove(t, p)
    ensures CanOpen(Removed(t, p), p)
    ensures Appended(Removed(t, p), p, text) == Written(t, p, text)
  {
    assert Appended(Removed(t, p), p, text)[p.dir] == Written(t, p, text)[p.dir];
  }

  /** Writing an openable file keeps every path exactly as openable as before. */
  lemma WrittenKeepsOpen(t: Tree, p: FilePath, text: string)
    requires CanOpen(t, p)
    ensures forall q {:trigger CanOpen(Written(t, p, text), q)} :: CanOpen(Written(t, p, text), q) == CanOpen(t, q)
  {
  }

  /** Every path of a sequence of writes can be opened. */
  predicate AllOpen(t: Tree, ws: seq<(FilePath, string)>) {
    forall k | 0 <= k < |ws| :: CanOpen(t, ws[k].0)
  }

  /** No path is written twice. */
  predicate DistinctPaths(ws: seq<(FilePath, string)>) {
    forall i, j | 0 <= i < j < |ws| :: ws[i].0 != ws[j].0
  }

  /**
   * The tree after writing each text to its path, in order. The writes leave
   * every path exactly as openable as it was.
   */
  function WrittenAll(t: Tree, ws: seq<(FilePath, string)>): (r: Tree)
    requires AllOpen(t, ws)
    ensures forall p {:trigger CanOpen(r, p)} :: CanOpen(r, p) == CanOpen(t, p)
    decreases |ws|
  {
    if ws == [] then t
    else
      var before := WrittenAll(t, ws[..|ws| - 1]);
      var (p, text) := ws[|ws| - 1];
      WrittenKeepsOpen(before, p, text);
      Written(before, p, text)
  }

  /** After a, b can be written exactly when it could before; a + b exactly when b could. */
  lemma WrittenAllOpen(t: Tree, a: seq<(FilePath, string)>, b: seq<(FilePath, string)>)
    requires AllOpen(t, a)
    ensures AllOpen(WrittenAll(t, a), b) == AllOpen(t, b)
    ensures AllOpen(t, a + b) == AllOpen(t, b)
  {
    var ab := a + b;
    forall k | 0 <= k < |b| ensures ab[|a| + k] == b[k] { }
  }

  /** Writing a and then b is writing a + b. */
  lemma {:induction false} WrittenAllThen(t: Tree, a: seq<(FilePath, string)>, b: seq<(FilePath, string)>)
    requires AllOpen(t, a) && AllOpen(t, b)
    ensures AllOpen(t, a + b) && AllOpen(WrittenAll(t, a), b)
    ensures WrittenAll(t, a + b) == WrittenAll(WrittenAll(t, a), b)
    decreases |b|
  {
    WrittenAllOpen(t, a, b);
    var ab := a + b;
    if b == [] {
      assert ab == a;
    } else {
      var init, last := b[..|b| - 1], b[|b| - 1];
      assert AllOpen(t, init);
      WrittenAllThen(t, a, init);
      assert ab[..|ab| - 1] == a + init && ab[|ab| - 1] == last;
      var before := WrittenAll(t, a + init);
      calc {
        WrittenAll(t, ab);
        Written(before, last.0, last.1);
        WrittenAll(WrittenAll(t, a), b);
      }
    }
  }

  /** With no path written twice, each path ends up holding its text. */
  lemma {:induction false} WrittenAllFile(t: Tree, ws: seq<(FilePath, string)>, k: nat)
    requires AllOpen(t, ws) && DistinctPaths(ws) && k < |ws|
    ensures FileText(WrittenAll(t, ws), ws[k].0) == Some(ws[k].1)
    decreases |ws|
  {
    var init := ws[..|ws| - 1];
    if k < |init| {
      assert init[k] == ws[k];
      assert ws[k].0 != ws[|ws| - 1].0;
      assert DistinctPaths(init) by {
        forall i, j | 0 <= i < j < |init| ensures init[i].0 != init[j].0 {
          assert init[i] == ws[i] && init[j] == ws[j];
        }
      }
      WrittenAllFile(t, init, k);
    }
  }

  /** The writes change no path they do not name. */
  lemma {:induction false} WrittenAllElsewhere(t: Tree, ws: seq<(FilePath, string)>, p: FilePath)
    requires AllOpen(t, ws)
    requires forall k | 0 <= k < |ws| :: ws[k].0 != p
    ensures Lookup(WrittenAll(t, ws), p) == Lookup(t, p)
    decreases |ws|
  {
    if ws != [] {
      var init := ws[..|ws| - 1];
      assert forall k | 0 <= k < |init| :: init[k] == ws[k];
      WrittenAllElsewhere(t, init, p);
    }
  }

  /** `Path(dir).mkdir(parents=True, exist_ok=True)`: the directory exists afterwards, nothing else changes. */
  function MadeDir(t: Tree, dir: Path): (r: Tree)
    ensures r.Keys == t.Keys + {dir}
    ensures dir !in t ==> r[dir] == map[]
    ensures forall d {:trigger r[d]} | d in t :: r[d] == t[d]
  {
    if dir in t then t else t[dir := map[]]
  }

  /** Creating a directory changes no entry of any other directory. */
  lemma MadeDirKeepsEntries(t: Tree, dir: Path)
    ensures forall p: FilePath {:trigger Lookup(MadeDir(t, dir), p)} | p.dir != dir :: Lookup(MadeDir(t, dir), p) == Lookup(t, p)
  {
  }

  // ---------------------------------------------------------------------------
  // Listing: the regular files of a directory, in Python's string order

  /** Python's `a < b` on strings: lexicographic by code point. */
  predicate Before(a: string, b: string)
    decreases |a|
  {
    b != [] && (a == [] || a[0] < b[0] || (a[0] == b[0] && Before(a[1..], b[1..])))
  }

  lemma {:induction false} BeforeIrreflexive(a: string)
    ensures !Before(a, a)
    decreases |a|
  {
    if a != [] { BeforeIrreflexive(a[1..]); }
  }

  lemma {:induction false} BeforeAsymmetric(a: string, b: string)
    ensures Before(a, b) ==> !Before(b, a)
    decreases |a|
  {
    if a != [] && b != [] && a[0] == b[0] { BeforeAsymmetric(a[1..], b[1..]); }
  }

  lemma {:induction false} BeforeTransitive(a: string, b: string, c: string)
    requires Before(a, b) && Before(b, c)
    ensures Before(a, c)
    decreases |a|
  {
    if a != [] && a[0] == b[0] && b[0] == c[0] { BeforeTransitive(a[1..], b[1..], c[1..]); }
  }

  lemma {:induction false} BeforeTotal(a: string, b: string)
    requires a != b
    ensures Before(a, b) || Before(b, a)
    decreases |a|
  {
    if a != [] && b != [] && a[0] == b[0] {
      assert a == [a[0]] + a[1..] && b == [b[0]] + b[1..];
      BeforeTotal(a[1..], b[1..]);
    }
  }

  /** m precedes every other member of s. */
  predicate IsLeast(s: set<Name>, m: Name) {
    forall x | x in s :: x == m || Before(m, x)
  }

  /** Every finite non-empty set of names has a least element. */
  lemma {:induction false} LeastExists(s: set<Name>)
    requires s != {}
    ensures exists m | m in s :: IsLeast(s, m)
    decreases |s|
  {
    var y :| y in s;
    if s == {y} {
      assert IsLeast(s, y);
    } else {
      var rest := s - {y};
      LeastExists(rest);
      var m :| m in rest && IsLeast(rest, m);
      if Before(y, m) {
        forall x | x in s ensures x == y || Before(y, x) {
          if x != y && x != m { BeforeTransitive(y, m, x); }
        }
        assert IsLeast(s, y);
      } else {
        BeforeTotal(m, y);
        assert IsLeast(s, m);
      }
    }
  }

  /** The least name of a non-empty set. */
  function Least(s: set<Name>): (m: Name)
    requires s != {}
    ensures m in s && forall x | x in s :: x == m || Before(m, x)
  {
    LeastExists(s);
    assert forall a, b :: Before(a, b) ==> !Before(b, a) by {
      forall a, b ensures Before(a, b) ==> !Before(b, a) { BeforeAsymmetric(a, b); }
    }
    var m :| m in s && IsLeast(s, m);
    m
  }

  predicate StrictlySorted(names: seq<Name>) {
    forall i, j | 0 <= i < j < |names| :: Before(names[i], names[j])
  }

  /** Python `sorted(...)` of a set of names: each name once, in ascending order. */
  function SortedNames(s: set<Name>): (names: seq<Name>)
    ensures |names| == |s|
    ensures forall x :: x in names <==> x in s
    ensures StrictlySorted(names)
    decreases |s|
  {
    if s == {} then []
    else
      var m := Least(s);
      var rest := SortedNames(s - {m});
      assert forall j | 0 <= j < |rest| :: Before(m, rest[j]) by {
        forall j | 0 <= j < |rest| ensures Before(m, rest[j]) {
          assert rest[j] in s - {m};
        }
      }
      [m] + rest
  }

  /** The names of the regular files of a directory. */
  function RegularFiles(d: Dir): (names: set<Name>)
    ensures forall n :: n in names <==> n in d && d[n].File?
  {
    set n | n in d && d[n].File?
  }

  /**
   * The runner's listing of the pending directory: its regular files sorted
   * by name; None when the directory does not exist.
   */
  function Listing(t: Tree, dir: Path): (names: Option<seq<Name>>)
    ensures names.None? <==> dir !in t
    ensures names.Some? ==> StrictlySorted(names.value)
    ensures names.Some? ==> forall n :: n in names.value <==> Lookup(t, FilePath(dir, n)).Some? && t[dir][n].File?
  {
    if dir in t then Some(SortedNames(RegularFiles(t[dir]))) else None
  }

  // ---------------------------------------------------------------------------
  // Path.stem

  /** Position of the last occurrence of c in s, or -1. */
  function LastIndex(s: string, c: char): (i: int)
    ensures -1 <= i < |s|
    ensures i >= 0 ==> s[i] == c
    ensures forall k | i < k < |s| :: s[k] != c
  {
    if s == [] then -1
    else if s[|s| - 1] == c then |s| - 1
    else LastIndex(s[..|s| - 1], c)
  }

  /**
   * `Path(name).stem`: the name without its final suffix. The suffix starts at
   * the last '.', provided that dot is neither the first nor the last character.
   */
  function Stem(name: Name): (stem: Name)
    ensures |stem| <= |name| && stem == name[..|stem|]
    ensures stem == name <==> !(0 < LastIndex(name, '.') < |name| - 1)
    ensures stem != name ==>
              && 0 < |stem| && |stem| + 1 < |name|
              && name[|stem|] == '.' && '.' !in name[|stem| + 1..]
  {
    var i := LastIndex(name, '.');
    if 0 < i < |name| - 1 then name[..i] else name
  }

  /** The stem of `base + ".ext"` is `base` when base is non-empty and the extension has no dot. */
  lemma StemOfSuffixed(base: Name, ext: string)
    requires base != [] && ext != [] && '.' !in ext
    ensures Stem(base + "." + ext) == base
  {
    var name := base + "." + ext;
    var i := LastIndex(name, '.');
    assert name[|base|] == '.';
    assert name[..|base|] == base;
  }
}
