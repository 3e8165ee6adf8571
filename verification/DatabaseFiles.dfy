/** A SQLite database as it lies in a file tree: the main file and three sidecars, each present or not. Putting one
    in place makes its parent directories, clears all four files and writes those that are to be there. */
module DatabaseFiles {
  import opened Wrappers
  import opened FileTree
  import opened RuntimeRestore

  /** The contents of the main file, the write-ahead log, the shared memory file and the journal. */
  type Parts = ps: seq<Option<string>> | |ps| == 4 witness [None, None, None, None]

  const SUFFIXES: seq<string> := ["", "-wal", "-shm", "-journal"]

  function PartPath(d: Path, j: nat): Path
    requires d != [] && j < 4
  {
    WithSuffix(d, SUFFIXES[j])
  }

  predicate IsPart(d: Path, p: Path)
    requires d != []
  {
    exists j :: 0 <= j < 4 && p == PartPath(d, j)
  }

  predicate PartIs(t: Tree, p: Path, part: Option<string>) {
    match part
    case None => p !in t
    case Some(content) => p in t && t[p] == File(content)
  }

  /** The files as they are; a directory in the place of one does not count. */
  function PartsOf(t: Tree, d: Path): Parts
    requires d != []
  {
    seq(4, j requires 0 <= j < 4 =>
      if PartPath(d, j) in t && t[PartPath(d, j)].File? then Some(t[PartPath(d, j)].content) else None)
  }

  function WithPart(t: Tree, p: Path, part: Option<string>): Tree {
    match part
    case None => t - {p}
    case Some(content) => t[p := File(content)]
  }

  function WithParts(t: Tree, d: Path, parts: Parts, n: nat): Tree
    requires d != [] && n <= 4
  {
    if n == 0 then t else WithPart(WithParts(t, d, parts, n - 1), PartPath(d, n - 1), parts[n - 1])
  }

  function PutParts(t: Tree, d: Path, parts: Parts): Tree
    requires d != []
  {
    WithParts(WithParents(t, d), d, parts, 4)
  }

  /** `p` is one of the directories the database needs. */
  predicate Above(p: Path, d: Path) {
    p != [] && p < d
  }

  /** No file stands above the database, and no directory in the place of one of its files. */
  predicate Writable(t: Tree, d: Path)
    requires d != []
  {
    !ParentIsFile(t, d) && forall j :: 0 <= j < 4 ==> !(PartPath(d, j) in t && t[PartPath(d, j)].Dir?)
  }

  lemma PartPathsDiffer(d: Path, i: nat, j: nat)
    requires d != [] && i < 4 && j < 4 && PartPath(d, i) == PartPath(d, j)
    ensures i == j
  {
    var name, n := d[|d| - 1], |d| - 1;
    assert PartPath(d, i)[n] == name + SUFFIXES[i] && PartPath(d, j)[n] == name + SUFFIXES[j];
    assert (name + SUFFIXES[i])[|name|..] == SUFFIXES[i] && (name + SUFFIXES[j])[|name|..] == SUFFIXES[j];
    SuffixesDiffer(i, j);
  }

  lemma SuffixesDiffer(i: nat, j: nat)
    requires i < 4 && j < 4 && SUFFIXES[i] == SUFFIXES[j]
    ensures i == j
  {
    assert |SUFFIXES[0]| == 0 && |SUFFIXES[1]| == 4 && |SUFFIXES[2]| == 4 && |SUFFIXES[3]| == 8;
    assert SUFFIXES[1][1] == 'w' && SUFFIXES[2][1] == 's';
  }

  lemma WithParentsAt(t: Tree, d: Path, p: Path)
    ensures if p in t then SameAt(WithParents(t, d), t, p, p)
            else (p in WithParents(t, d) <==> Above(p, d)) && (p in WithParents(t, d) ==> WithParents(t, d)[p] == Dir)
  {
    if p !in t && Above(p, d) {
      assert p == d[..|p|];
    }
  }

  lemma {:induction false} WithPartsAt(t: Tree, d: Path, parts: Parts, n: nat, p: Path)
    requires d != [] && n <= 4
    ensures forall j :: 0 <= j < n && p == PartPath(d, j) ==> PartIs(WithParts(t, d, parts, n), p, parts[j])
    ensures (forall j :: 0 <= j < n ==> p != PartPath(d, j)) ==> SameAt(WithParts(t, d, parts, n), t, p, p)
  {
    if n > 0 {
      WithPartsAt(t, d, parts, n - 1, p);
      if p == PartPath(d, n - 1) {
        forall j | 0 <= j < n - 1 ensures p != PartPath(d, j) {
          if p == PartPath(d, j) {
            PartPathsDiffer(d, j, n - 1);
          }
        }
      }
    }
  }

  /** Afterwards each part is as asked for, the parents are there, and everything else is as it was. */
  lemma PutPartsAt(t: Tree, d: Path, parts: Parts, p: Path)
    requires d != []
    ensures forall j :: 0 <= j < 4 && p == PartPath(d, j) ==> PartIs(PutParts(t, d, parts), p, parts[j])
    ensures !IsPart(d, p) && p in t ==> SameAt(PutParts(t, d, parts), t, p, p)
    ensures !IsPart(d, p) && p !in t ==>
              && (p in PutParts(t, d, parts) <==> Above(p, d))
              && (p in PutParts(t, d, parts) ==> PutParts(t, d, parts)[p] == Dir)
  {
    WithPartsAt(WithParents(t, d), d, parts, 4, p);
    WithParentsAt(t, d, p);
  }

  lemma PutPartsIsTree(t: Tree, d: Path, parts: Parts)
    requires d != [] && IsTree(t) && Writable(t, d)
    ensures IsTree(PutParts(t, d, parts))
    ensures forall p :: Above(p, d) ==> p in PutParts(t, d, parts) && PutParts(t, d, parts)[p].Dir?
  {
    var r := PutParts(t, d, parts);
    forall p | Above(p, d) ensures p in r && r[p].Dir? {
      PutPartsAt(t, d, parts, p);
      assert p == d[..|p|];
      assert !IsPart(d, p);
    }
    forall p | p in r ensures p != [] && (|p| > 1 ==> p[..|p| - 1] in r && r[p[..|p| - 1]].Dir?) {
      PutPartsAt(t, d, parts, p);
      if |p| > 1 {
        var up := p[..|p| - 1];
        PutPartsAt(t, d, parts, up);
        if IsPart(d, p) {
          assert up == d[..|d| - 1];
          assert Above(up, d);
        } else if p in t {
          assert !IsPart(d, up) by {
            if j :| 0 <= j < 4 && up == PartPath(d, j) {
              assert t[up].Dir?;
            }
          }
        } else {
          assert Above(up, d);
        }
      }
    }
  }
}
