/** What the table-by-table loops of fork and exit have achieved part-way through. */
module SpaceCopies {
  import opened Basics
  import opened AddressSpaces

  /** Everyone but process c, at its table i, reads what it read in m0. */
  ghost predicate SameBut(m0: Mmu, m: Mmu, c: nat, i: nat) {
    forall d: nat, k: nat, y: nat :: !(d == c && k == i) ==> Content(m, d, k, y) == Content(m0, d, k, y)
  }

  /** Same tables and frames in the same places; only entries and counts moved. */
  ghost predicate SameShape(m0: Mmu, m: Mmu) {
    m.dirs == m0.dirs && m.tables.Keys == m0.tables.Keys && m.frames.Keys <= m0.frames.Keys && |m.count| == |m0.count|
  }

  /** From entry n on, the user slots of table t (in position i) are empty. */
  ghost predicate EmptyFrom(m: Mmu, i: nat, t: nat, n: nat) {
    t in m.tables && forall y: nat :: n <= y < |m.tables[t]| && UserSlot(i, y) ==> m.tables[t][y] == Absent
  }

  /** The first n entries of table i have been shared from process p to process c. */
  ghost predicate Shared(m0: Mmu, m: Mmu, p: nat, c: nat, i: nat, ct: nat, n: nat) {
    && SameShape(m0, m) && m.frames == m0.frames
    && SameBut(m0, m, c, i)
    && (forall y: nat :: y < n ==> Content(m, c, i, y) == Content(m0, p, i, y))
    && EmptyFrom(m, i, ct, n)
    && (forall t :: t in m0.tables && t != ct ==> KeepsFrames(m0.tables, m.tables, t))
  }

  lemma SharedStart(m: Mmu, p: nat, c: nat, i: nat, pt: nat, ct: nat, n: nat)
    requires Inv(m) && Owns(m.dirs, p, i, pt) && Owns(m.dirs, c, i, ct)
    requires EmptyFrom(m, i, ct, n)
    requires forall y: nat :: y < n ==> !UserSlot(i, y)
    ensures Shared(m, m, p, c, i, ct, n)
  {
    forall y: nat | y < n
      ensures Content(m, c, i, y) == Content(m, p, i, y)
    {
      KernelSlotEmpty(m, c, i, ct, y);
      KernelSlotEmpty(m, p, i, pt, y);
    }
  }

  lemma KernelSlotEmpty(m: Mmu, d: nat, i: nat, t: nat, y: nat)
    requires Inv(m) && Owns(m.dirs, d, i, t) && !UserSlot(i, y)
    ensures Content(m, d, i, y) == None
    ensures t in m.tables && (y < |m.tables[t]| ==> !m.tables[t][y].User?)
  {
  }

  /** Entry n holds no user page, so the child's stays as it is. */
  lemma SharedSkip(m0: Mmu, m: Mmu, p: nat, c: nat, i: nat, pt: nat, ct: nat, n: nat)
    requires Inv(m) && Shared(m0, m, p, c, i, ct, n) && p != c
    requires Owns(m.dirs, p, i, pt) && Owns(m.dirs, c, i, ct) && pt in m.tables && n < |m.tables[pt]|
    requires !UserSlot(i, n) || m.tables[pt][n] == Absent
    ensures Shared(m0, m, p, c, i, ct, n + 1)
  {
    assert Content(m, p, i, n) == Content(m0, p, i, n);
    if !UserSlot(i, n) {
      KernelSlotEmpty(m, p, i, pt, n);
      KernelSlotEmpty(m, c, i, ct, n);
    }
  }

  /** One user page changes hands: write-protected in the parent, mapped in the child, counted. */
  lemma SharedStep(m0: Mmu, m: Mmu, p: nat, c: nat, i: nat, pt: nat, ct: nat, n: nat)
    requires Inv(m) && Shared(m0, m, p, c, i, ct, n) && p != c
    requires Owns(m.dirs, p, i, pt) && Owns(m.dirs, c, i, ct)
    requires pt in m.tables && n < |m.tables[pt]| && UserSlot(i, n) && m.tables[pt][n].User?
    ensures m.tables[pt][n].frame < |m.count| && pt != ct && ct in m.tables && n < |m.tables[ct]|
    ensures var m2 := Share(Protect(m, pt, n), ct, n, m.tables[pt][n].frame);
            Inv(m2) && Shared(m0, m2, p, c, i, ct, n + 1)
  {
    hide Inv, Content;
    TableFacts(m, p, i, pt);
    TableFacts(m, c, i, ct);
    TablesDiffer(m, p, c, i, pt, ct);
    assert pt != ct && ct in m.tables && |m.tables[ct]| == |m.tables[pt]| == ENTRIES;
    var f := m.tables[pt][n].frame;
    assert Names(m.tables, pt, n, f);
    NamesCounted(m, pt, n, f);
    var m1 := Protect(m, pt, n);
    ProtectInv(m, p, i, pt, n);
    ProtectContents(m, p, i, pt, n);
    assert Names(m1.tables, pt, n, f);
    ShareInv(m1, c, i, ct, n, f, pt, n);
    ShareContents(m1, c, i, ct, n, f);
    var m2 := Share(m1, ct, n, f);
    assert Content(m, p, i, n) == Content(m0, p, i, n);
    UserContent(m, p, i, pt, n);
    SharedAfter(m0, m, m2, p, c, i, ct, n);
  }

  lemma TableFacts(m: Mmu, d: nat, i: nat, t: nat)
    requires Inv(m) && Owns(m.dirs, d, i, t)
    ensures t in m.tables && |m.tables[t]| == ENTRIES && |m.dirs[d]| == DIRS
  {
  }

  lemma TablesDiffer(m: Mmu, d: nat, e: nat, i: nat, t: nat, u: nat)
    requires Inv(m) && Owns(m.dirs, d, i, t) && Owns(m.dirs, e, i, u) && d != e
    ensures t != u
  {
  }

  lemma UserContent(m: Mmu, d: nat, i: nat, t: nat, n: nat)
    requires Inv(m) && Owns(m.dirs, d, i, t) && t in m.tables && n < |m.tables[t]| && m.tables[t][n].User?
    ensures m.tables[t][n].frame in m.frames
    ensures Content(m, d, i, n) == Some(m.frames[m.tables[t][n].frame])
  {
    assert Names(m.tables, t, n, m.tables[t][n].frame);
  }

  lemma SharedAfter(m0: Mmu, m: Mmu, m2: Mmu, p: nat, c: nat, i: nat, ct: nat, n: nat)
    requires Shared(m0, m, p, c, i, ct, n) && p != c
    requires SameShape(m, m2) && m2.frames == m.frames && SameElsewhere(m, m2, c, i, n)
    requires Content(m2, c, i, n) == Content(m0, p, i, n)
    requires ct in m.tables && ct in m2.tables && |m2.tables[ct]| == |m.tables[ct]|
    requires forall y: nat :: n < y < |m.tables[ct]| ==> m2.tables[ct][y] == m.tables[ct][y]
    requires forall t :: t in m.tables && t != ct ==> KeepsFrames(m.tables, m2.tables, t)
    ensures Shared(m0, m2, p, c, i, ct, n + 1)
  {
    hide Content;
    forall t | t in m0.tables && t != ct
      ensures KeepsFrames(m0.tables, m2.tables, t)
    {
      assert KeepsFrames(m0.tables, m.tables, t) && KeepsFrames(m.tables, m2.tables, t);
    }
  }

  // ------------------------------------------------------------ a whole address space is copied

  /** Tables below i of process c are copies of p's; from i on c has no user pages, and no tables
      except the one that holds its kernel stack. */
  ghost predicate Cloned(m0: Mmu, m: Mmu, p: nat, c: nat, i: nat) {
    && c !in m0.dirs && c in m.dirs && m.dirs - {c} == m0.dirs && |m.dirs[c]| == DIRS
    && m.frames == m0.frames && |m.count| == |m0.count|
    && (forall d: nat, k: nat, y: nat :: d != c ==> Content(m, d, k, y) == Content(m0, d, k, y))
    && (forall k: nat, y: nat :: k < i ==> Content(m, c, k, y) == Content(m0, p, k, y))
    && (forall k: nat :: 0 < k && i <= k < LAST_DIR ==> m.dirs[c][k] == None)
    && m.dirs[c][0].Some? && m.dirs[c][LAST_DIR].Some?
    && (i <= LAST_DIR ==> EmptyFrom(m, LAST_DIR, m.dirs[c][LAST_DIR].value, 0))
    && (forall t :: t in m0.tables ==> KeepsFrames(m0.tables, m.tables, t))
  }

  /** A directory with two tables, for low memory and for the kernel stack, and no user pages. */
  ghost predicate Fresh(m0: Mmu, n: Mmu, c: nat, t0: nat, t1: nat) {
    && c !in m0.dirs && c in n.dirs && n.dirs - {c} == m0.dirs && |n.dirs[c]| == DIRS
    && n.frames == m0.frames && |n.count| == |m0.count|
    && SameContents(m0, n)
    && Owns(n.dirs, c, 0, t0) && Owns(n.dirs, c, LAST_DIR, t1)
    && (forall k: nat :: 0 < k < LAST_DIR ==> n.dirs[c][k] == None)
    && EmptyFrom(n, 0, t0, FIRST_USER) && EmptyFrom(n, LAST_DIR, t1, 0)
    && t0 !in m0.tables && t1 !in m0.tables
    && (forall t :: t in m0.tables ==> t in n.tables && n.tables[t] == m0.tables[t])
  }

  lemma ClonedFirst(m0: Mmu, n: Mmu, q: Mmu, p: nat, c: nat, t0: nat, t1: nat)
    requires Inv(m0) && Inv(q) && Fresh(m0, n, c, t0, t1) && p != c
    requires Shared(n, q, p, c, 0, t0, ENTRIES) && SameTable(n, q, t1)
    ensures Cloned(m0, q, p, c, 1)
  {
    forall y: nat
      ensures Content(q, c, 0, y) == Content(m0, p, 0, y)
    {
      if y >= ENTRIES {
        BeyondTable(q, c, 0, y);
        BeyondTable(m0, p, 0, y);
      } else {
        assert Content(q, c, 0, y) == Content(n, p, 0, y) == Content(m0, p, 0, y);
      }
    }
  }

  lemma ClonedSkip(m0: Mmu, m: Mmu, p: nat, c: nat, i: nat)
    requires Inv(m0) && Inv(m) && Cloned(m0, m, p, c, i) && p in m0.dirs && 0 < i < LAST_DIR && m0.dirs[p][i] == None
    ensures Cloned(m0, m, p, c, i + 1)
  {
  }

  /** A fresh table was hung into slot i of process c. */
  lemma ClonedTable(m0: Mmu, m: Mmu, p: nat, c: nat, i: nat, t: nat, s: seq<Entry>)
    requires Inv(m) && Cloned(m0, m, p, c, i) && 0 < i < LAST_DIR
    requires t !in m.tables && s == seq(ENTRIES, _ => Absent)
    ensures var n := AddTable(m, c, i, t, s);
            && Inv(n) && Owns(n.dirs, c, i, t) && EmptyFrom(n, i, t, 0)
            && SameContents(m, n) && n.dirs - {c} == m.dirs - {c}
  {
    assert m.dirs[c][i] == None;
    AddTableInv(m, c, i, t, s);
  }

  lemma ClonedShared(m0: Mmu, m: Mmu, n: Mmu, q: Mmu, p: nat, c: nat, i: nat, t: nat)
    requires Cloned(m0, m, p, c, i) && p != c && 0 < i <= LAST_DIR
    requires SameContents(m, n) && n.frames == m.frames && |n.count| == |m.count|
    requires c in n.dirs && n.dirs - {c} == m.dirs - {c} && |n.dirs[c]| == DIRS
    requires i < LAST_DIR ==> n.dirs[c] == m.dirs[c][i := Some(t)]
    requires i == LAST_DIR ==> n.dirs[c] == m.dirs[c]
    requires i < LAST_DIR ==> SameTable(m, q, m.dirs[c][LAST_DIR].value)
    requires t !in m0.tables && forall x :: x in m.tables ==> x in n.tables && n.tables[x] == m.tables[x]
    requires Shared(n, q, p, c, i, t, ENTRIES)
    requires forall y: nat :: y >= ENTRIES ==> Content(q, c, i, y) == Content(m0, p, i, y)
    ensures Cloned(m0, q, p, c, i + 1)
  {
    hide Content;
    forall x | x in m0.tables
      ensures KeepsFrames(m0.tables, q.tables, x)
    {
      assert KeepsFrames(m0.tables, m.tables, x) && KeepsFrames(n.tables, q.tables, x);
    }
    forall k: nat, y: nat | k < i + 1
      ensures Content(q, c, k, y) == Content(m0, p, k, y)
    {
      if k == i && y < ENTRIES {
        assert Content(q, c, i, y) == Content(n, p, i, y) == Content(m, p, i, y);
      }
    }
  }

  ghost predicate SameTable(m: Mmu, n: Mmu, t: nat) {
    t in m.tables && t in n.tables && n.tables[t] == m.tables[t]
  }

  /** Tables in slots lo up to hi. */
  function TablesIn(dir: seq<Option<nat>>, lo: nat, hi: nat): nat
    requires hi <= |dir|
    decreases hi - lo
  {
    if lo >= hi then 0 else (if dir[lo].Some? then 1 else 0) + TablesIn(dir, lo + 1, hi)
  }

  lemma BeyondTable(m: Mmu, d: nat, i: nat, y: nat)
    requires Inv(m) && y >= ENTRIES
    ensures Content(m, d, i, y) == None
  {
    if d in m.dirs && i < |m.dirs[d]| && m.dirs[d][i].Some? {
      assert Owns(m.dirs, d, i, m.dirs[d][i].value);
    }
  }

  // ------------------------------------------------------------ a table is emptied

  /** The first n entries of table t, in position i of process d, hold no user page any more. */
  ghost predicate Emptied(m0: Mmu, m: Mmu, d: nat, i: nat, t: nat, n: nat) {
    && SameShape(m0, m)
    && SameBut(m0, m, d, i)
    && t in m.tables && (forall y: nat :: y < n && y < |m.tables[t]| ==> !m.tables[t][y].User?)
    && forall x :: x in m.tables && x != t ==> m.tables[x] == m0.tables[x]
  }

  lemma EmptiedStep(m0: Mmu, m: Mmu, d: nat, i: nat, t: nat, n: nat)
    requires Inv(m) && Emptied(m0, m, d, i, t, n)
    requires Owns(m.dirs, d, i, t) && n < |m.tables[t]| && m.tables[t][n].User?
    ensures m.tables[t][n].frame < |m.count| && m.count[m.tables[t][n].frame] > 0
    ensures m.tables[t][n].frame in m.frames
    ensures Inv(Drop(m, t, n)) && Emptied(m0, Drop(m, t, n), d, i, t, n + 1)
  {
    hide Inv, Content;
    DropInv(m, d, i, t, n);
    DropContents(m, d, i, t, n);
  }

  lemma EmptiedContents(m: Mmu, d: nat, i: nat, t: nat)
    requires Inv(m) && Owns(m.dirs, d, i, t)
    requires t in m.tables && forall y: nat :: y < |m.tables[t]| ==> !m.tables[t][y].User?
    ensures Blank(m.tables[t]) && forall y: nat :: Content(m, d, i, y) == None
  {
  }

  // ------------------------------------------------------------ a whole address space is released

  /** Tables below i of process d are gone (the first and the last only emptied); no one else's
      memory changed. */
  ghost predicate Released(m0: Mmu, m: Mmu, d: nat, i: nat) {
    && d in m0.dirs && d in m.dirs && m.dirs - {d} == m0.dirs - {d} && |m.dirs[d]| == |m0.dirs[d]| == DIRS
    && |m.count| == |m0.count|
    && (forall e: nat, k: nat, y: nat :: e != d ==> Content(m, e, k, y) == Content(m0, e, k, y))
    && (forall k: nat, y: nat :: k < i ==> Content(m, d, k, y) == None)
    && (forall k: nat :: k < DIRS && (k == 0 || k == LAST_DIR || k >= i) ==> m.dirs[d][k] == m0.dirs[d][k])
    && (forall k: nat :: 0 < k < i && k < LAST_DIR ==> m.dirs[d][k] == None)
    && (forall x :: x in m.tables ==> x in m0.tables)
    && (forall x :: x in m.tables && m.tables[x] != m0.tables[x] ==> OwnedBy(m0.dirs, d, x))
  }

  ghost predicate OwnedBy(dirs: Directories, d: nat, t: nat) {
    exists k: nat :: Owns(dirs, d, k, t)
  }

  lemma ReleasedFirst(m0: Mmu, m: Mmu, d: nat, t: nat)
    requires Inv(m) && Owns(m0.dirs, d, 0, t) && |m0.dirs[d]| == DIRS && Emptied(m0, m, d, 0, t, ENTRIES)
    ensures Released(m0, m, d, 1)
  {
    EmptiedContents(m, d, 0, t);
  }

  lemma ReleasedSkip(m0: Mmu, m: Mmu, d: nat, i: nat)
    requires Released(m0, m, d, i) && 0 < i < DIRS && m.dirs[d][i] == None
    ensures Released(m0, m, d, i + 1)
  {
  }

  lemma ReleasedLast(m0: Mmu, m: Mmu, q: Mmu, d: nat, t: nat)
    requires Inv(q) && Released(m0, m, d, LAST_DIR) && Owns(m.dirs, d, LAST_DIR, t)
    requires Emptied(m, q, d, LAST_DIR, t, ENTRIES)
    ensures Released(m0, q, d, DIRS)
  {
    EmptiedContents(q, d, LAST_DIR, t);
    assert Owns(m0.dirs, d, LAST_DIR, t);
    ReleasedMore(m0, m, q, d, LAST_DIR);
  }

  lemma ReleasedNext(m0: Mmu, m: Mmu, q: Mmu, r: Mmu, d: nat, i: nat, t: nat)
    requires Inv(q) && Released(m0, m, d, i) && 0 < i < LAST_DIR && Owns(m.dirs, d, i, t)
    requires Emptied(m, q, d, i, t, ENTRIES) && q.dirs == m.dirs
    requires r == RemoveTable(q, d, i, t) && SameContents(q, r)
    ensures Released(m0, r, d, i + 1)
  {
    EmptiedContents(q, d, i, t);
    ReleasedMore(m0, m, q, d, i);
  }

  lemma ReleasedMore(m0: Mmu, m: Mmu, q: Mmu, d: nat, i: nat)
    requires Released(m0, m, d, i) && SameBut(m, q, d, i) && forall y: nat :: Content(q, d, i, y) == None
    ensures forall e: nat, k: nat, y: nat :: e != d ==> Content(q, e, k, y) == Content(m0, e, k, y)
    ensures forall k: nat, y: nat :: k < i + 1 ==> Content(q, d, k, y) == None
  {
    hide Content;
  }

  /** A table of which nothing can be read has no user entries. */
  lemma UnreadableIsBlank(m: Mmu, d: nat, i: nat, t: nat)
    requires Inv(m) && Owns(m.dirs, d, i, t) && forall y: nat :: Content(m, d, i, y) == None
    ensures t in m.tables && Blank(m.tables[t])
  {
    forall y: nat | y < |m.tables[t]|
      ensures !m.tables[t][y].User?
    {
      assert Content(m, d, i, y) == None;
      if m.tables[t][y].User? { UserContent(m, d, i, t, y); }
    }
  }
}
