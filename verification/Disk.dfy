/**
  The workspace on disk: files by normalised relative path, and directories. Paths are lists of
  segments, so that "below" is "proper prefix".
 */
module Disk {

  import opened Options

  type Path = seq<string>
  type Bytes = seq<bv8>

  datatype Disk = Disk(files: map<Path, Bytes>, dirs: set<Path>)

  function Above(p: Path): set<Path> {
    set i | 0 <= i < |p| :: p[..i]
  }

  /** A tree: whatever lies above a file or directory is a directory, and never also a file. */
  ghost predicate Tree(d: Disk) {
    [] in d.dirs &&
    (forall p :: p in d.files ==> p !in d.dirs && Above(p) <= d.dirs) &&
    (forall p :: p in d.dirs ==> Above(p) <= d.dirs)
  }

  function Content(d: Disk, p: Path): Option<Bytes> {
    if p in d.files then Some(d.files[p]) else None
  }

  predicate Exists(d: Disk, p: Path) {
    p in d.files || p in d.dirs
  }

  /** Something above `p` is a file, so that looking `p` up fails with an error other than "not found". */
  predicate Blocked(d: Disk, p: Path) {
    exists q :: q in Above(p) && q in d.files
  }

  /** `mkdir` of the parents. */
  function MakeParents(d: Disk, p: Path): Disk {
    d.(dirs := d.dirs + Above(p))
  }

  /** `mkdir` of the parents, then an atomic write. */
  function Write(d: Disk, p: Path, b: Bytes): Disk {
    Disk(d.files[p := b], d.dirs + Above(p))
  }

  function Remove(d: Disk, p: Path): Disk {
    d.(files := d.files - {p})
  }

  /** Put a path back to what it held. */
  function Restore(d: Disk, p: Path, c: Option<Bytes>): Disk {
    if c.Some? then Write(d, p, c.value) else Remove(d, p)
  }

  lemma AboveIsTransitive(p: Path, q: Path)
    requires q in Above(p)
    ensures Above(q) <= Above(p)
  {
    forall r | r in Above(q)
      ensures r in Above(p)
    {
      var j :| 0 <= j < |q| && r == q[..j];
      assert r == p[..j];
    }
  }

  lemma NotAboveItself(p: Path)
    ensures p !in Above(p)
  {
  }

  lemma MakeParentsKeepsTree(d: Disk, p: Path)
    requires Tree(d) && !Blocked(d, p)
    ensures Tree(MakeParents(d, p))
  {
    var w := MakeParents(d, p);
    forall q | q in w.dirs
      ensures Above(q) <= w.dirs
    {
      if q in Above(p) { AboveIsTransitive(p, q); }
    }
  }

  lemma WriteKeepsTree(d: Disk, p: Path, b: Bytes)
    requires Tree(d) && p !in d.dirs && !Blocked(d, p)
    ensures Tree(Write(d, p, b))
  {
    MakeParentsKeepsTree(d, p);
    NotAboveItself(p);
  }

  lemma RemoveKeepsTree(d: Disk, p: Path)
    requires Tree(d)
    ensures Tree(Remove(d, p))
  {
  }

  lemma TreeDoesNotBlock(d: Disk, p: Path)
    requires Tree(d) && Exists(d, p)
    ensures !Blocked(d, p)
  {
  }
}
