/** The local file store: src/infrastructure/storage/local-storage.service.ts. */
module Storage {
  import opened Basics
  import opened Paths

  type Bytes = seq<bv8>

  // ---- Keys ----

  /** Which of the four tests of `resolveKey` rejected a key. */
  datatype KeyError = Invalid | NotRelative | EscapesLexically | EscapesOnceResolved

  function ResolveKey(root: string, key: string): Result<string, KeyError> {
    if key == "" || '\0' in key then Err(Invalid)
    else if "/" <= key || "\\" <= key then Err(NotRelative)
    else
      var normalised := NormalizeRelative(key);
      if normalised == ".." || "../" <= normalised then Err(EscapesLexically)
      else
        var abs := ResolveFrom(root, normalised);
        if abs != root && !(root + "/" <= abs) then Err(EscapesOnceResolved)
        else Ok(abs)
  }

  /** The keys a caller may use, told from the key alone. */
  ghost predicate Acceptable(key: string) {
    && key != ""
    && '\0' !in key
    && key[0] != '/'
    && key[0] != '\\'
    && !Escapes(Steps(Split(key)))
  }

  /** Why an unacceptable key is refused. */
  function Complaint(key: string): KeyError {
    if key == "" || '\0' in key then Invalid
    else if key[0] == '/' || key[0] == '\\' then NotRelative
    else EscapesLexically
  }

  /** The normalised segment list a key stands for. */
  function Names(key: string): Location {
    Normal(key).names
  }

  lemma RelativePrefixes(key: string)
    requires key != ""
    ensures "/" <= key <==> key[0] == '/'
    ensures "\\" <= key <==> key[0] == '\\'
  {
    assert key[..1] == [key[0]];
  }

  /** The lexical test of `resolveKey` fires exactly when a prefix of the key escapes. */
  lemma LexicalTest(key: string)
    requires key != "" && key[0] != '/'
    ensures var normalised := NormalizeRelative(key);
            normalised == ".." || "../" <= normalised <==> Escapes(Steps(Split(key)))
    ensures AllPlain(Names(key))
  {
    WalkDepth(Steps(Split(key)));
    NormalizedSteps(key);
    NormalIsPlain(key);
    LeadingDots(NormalizeRelative(key));
  }

  /** A key that stays lexically inside resolves to the root followed by its plain names. */
  lemma ResolvedLocation(base: Location, key: string)
    requires AllPlain(base)
    requires key != "" && key[0] != '/' && !Escapes(Steps(Split(key)))
    ensures ResolveFrom(Absolute(base), NormalizeRelative(key)) == Absolute(base + Names(key))
  {
    var root := Absolute(base);
    var normalised := NormalizeRelative(key);
    WalkDepth(Steps(Split(key)));
    NormalizedSteps(key);
    SplitAtSlash(root, normalised);
    StepsConcat(Split(root), Split(normalised));
    LocateAbsolute(base);
    assert Unstack(Normal(key)) == Names(key);
    NormalIsPlain(key);
    WalkOfPlain(base + Names(key));
  }

  lemma InsideRoot(base: Location, names: Location)
    requires AllPlain(base) && AllPlain(names)
    ensures base != [] ==> Absolute(base + names) == Absolute(base) || Absolute(base) + "/" <= Absolute(base + names)
    ensures base == [] ==> (Absolute(names) == Absolute(base) || Absolute(base) + "/" <= Absolute(names) <==> names == [])
  {
    if names == [] {
      assert base + names == base;
    } else if base != [] {
      JoinConcat(base, names);
      assert Absolute(base + names) == (Absolute(base) + "/") + Join(names);
    } else {
      assert names[0] != "" && names[0][0] != '/' by {
        assert names[0][0] in names[0];
      }
      assert Join(names) != "" && Join(names)[0] == names[0][0];
      assert Absolute(names)[1] == names[0][0];
      assert Absolute(base) == "/";
    }
  }

  /** `resolveKey` below any root: refused for the reason the key itself shows, or decided by the prefix test. */
  lemma ResolveKeyDecides(base: Location, key: string)
    requires AllPlain(base)
    ensures AllPlain(Names(key))
    ensures !Acceptable(key) ==> ResolveKey(Absolute(base), key) == Err(Complaint(key))
    ensures Acceptable(key) ==>
              var root, abs := Absolute(base), Absolute(base + Names(key));
              ResolveKey(root, key) == if abs != root && !(root + "/" <= abs) then Err(EscapesOnceResolved) else Ok(abs)
  {
    NormalIsPlain(key);
    if key != "" && '\0' !in key {
      RelativePrefixes(key);
      if key[0] != '/' && key[0] != '\\' {
        LexicalTest(key);
        if !Escapes(Steps(Split(key))) {
          ResolvedLocation(base, key);
        }
      }
    }
  }

  /** Exact acceptance and containment below every root other than `/`: a key resolves if and only if it is
      acceptable, and then to the root followed by plain names. The second prefix test never fires. */
  lemma AcceptedExactly(base: Location, key: string)
    requires AllPlain(base) && base != []
    ensures ResolveKey(Absolute(base), key).Ok? <==> Acceptable(key)
    ensures Acceptable(key) ==> ResolveKey(Absolute(base), key) == Ok(Absolute(base + Names(key))) && AllPlain(Names(key))
    ensures !Acceptable(key) ==> ResolveKey(Absolute(base), key) == Err(Complaint(key))
  {
    ResolveKeyDecides(base, key);
    InsideRoot(base, Names(key));
  }

  /** With the file-system root itself as storage root the second test rejects every key that names
      anything: only keys that normalise to the root are left. */
  lemma SlashRootAcceptsOnlyItself(key: string)
    ensures ResolveKey(Absolute([]), key).Ok? <==> Acceptable(key) && Names(key) == []
    ensures ResolveKey(Absolute([]), key) == Err(EscapesOnceResolved) <==> Acceptable(key) && Names(key) != []
  {
    ResolveKeyDecides([], key);
    assert [] + Names(key) == Names(key);
    InsideRoot([], Names(key));
  }

  /** The names of a key, from its text. `..` takes back the name before it, `.` and doubled or trailing slashes
      count for nothing, and plain names stand as they are: with these, the names of every acceptable key are known. */
  lemma NamesFromText(before: string, name: string, after: string)
    requires Plain(name)
    ensures Names(before + "/" + name + "/../" + after) == Names(before + "/" + after)
    ensures Names(before + "/./" + after) == Names(before + "//" + after) == Names(before + "/" + after)
    ensures Names(before + "/") == Names(before)
  {
    DetourCancels(before, name, after);
    StandingStillCancels(before, after);
    TrailingSlash(before);
  }

  lemma PlainKeyNames(names: Location)
    requires AllPlain(names) && names != []
    ensures Names(Join(names)) == names
  {
    SplitJoin(names);
    StepsOfPlain(names);
    WalkOfPlain(names);
  }

  /** A detour leaves the fate of a key unchanged: accepted or not, and if so resolved to the same place. */
  lemma DetourResolvesAlike(base: Location, before: string, name: string, after: string)
    requires AllPlain(base) && base != [] && Plain(name) && '\0' !in name && before != ""
    ensures var long, short := before + "/" + name + "/../" + after, before + "/" + after;
            && (Acceptable(long) <==> Acceptable(short))
            && (Acceptable(short) ==> ResolveKey(Absolute(base), long) == ResolveKey(Absolute(base), short))
  {
    var long, short := before + "/" + name + "/../" + after, before + "/" + after;
    assert long[0] == before[0] && short[0] == before[0];
    DetourCancels(before, name, after);
    WalkDepth(Steps(Split(long)));
    WalkDepth(Steps(Split(short)));
    assert '\0' in short <==> '\0' in before || '\0' in after;
    assert '\0' in long <==> '\0' in before || '\0' in after;
    AcceptedExactly(base, long);
    AcceptedExactly(base, short);
  }

  // ---- The file tree, as the operating system keeps it ----

  datatype Node = File(bytes: Bytes) | Directory

  type Nodes = map<Location, Node>

  function Parent(p: Location): Location
    requires p != []
  {
    p[..|p| - 1]
  }

  predicate IsDirectory(nodes: Nodes, p: Location) {
    p in nodes && nodes[p].Directory?
  }

  predicate IsFile(nodes: Nodes, p: Location) {
    p in nodes && nodes[p].File?
  }

  /** Every entry lies in a directory, up to `/`. */
  ghost predicate WellFormed(nodes: Nodes) {
    && IsDirectory(nodes, [])
    && forall p {:trigger Parent(p)} | p in nodes && p != [] :: IsDirectory(nodes, Parent(p))
  }

  function Prefixes(p: Location): set<Location> {
    set i | 0 <= i <= |p| :: p[..i]
  }

  /** `mkdir` with `recursive: true`: fails when the path or an ancestor is a file. */
  function MakeDirectories(nodes: Nodes, dir: Location): Option<Nodes> {
    if exists i | 0 <= i <= |dir| :: IsFile(nodes, dir[..i]) then None
    else Some(nodes + map p | p in Prefixes(dir) :: Directory)
  }

  function WriteFile(nodes: Nodes, p: Location, bytes: Bytes): Option<Nodes> {
    if p == [] || IsDirectory(nodes, p) || !IsDirectory(nodes, Parent(p)) then None
    else Some(nodes[p := File(bytes)])
  }

  function Unlink(nodes: Nodes, p: Location): Option<Nodes> {
    if IsFile(nodes, p) then Some(nodes - {p}) else None
  }

  function DirectoryName(p: Location): Location {
    if p == [] then [] else Parent(p)
  }

  lemma {:induction false} AncestorsAreDirectories(nodes: Nodes, p: Location, n: nat)
    requires WellFormed(nodes) && p in nodes && n < |p|
    ensures IsDirectory(nodes, p[..n])
    decreases |p|
  {
    assert IsDirectory(nodes, Parent(p));
    if n < |p| - 1 {
      AncestorsAreDirectories(nodes, Parent(p), n);
      assert Parent(p)[..n] == p[..n];
    } else {
      assert Parent(p) == p[..n];
    }
  }

  /** Making directories keeps the tree well formed and adds exactly the missing prefixes. */
  lemma MakeDirectoriesKeeps(nodes: Nodes, dir: Location)
    requires WellFormed(nodes) && MakeDirectories(nodes, dir).Some?
    ensures var after := MakeDirectories(nodes, dir).value;
            && WellFormed(after)
            && after.Keys == nodes.Keys + Prefixes(dir)
            && (forall p | p in nodes :: after[p] == nodes[p])
            && forall p | p in Prefixes(dir) :: IsDirectory(after, p)
  {
    var after := MakeDirectories(nodes, dir).value;
    forall p | p in nodes ensures after[p] == nodes[p] {
      if p in Prefixes(dir) {
        var i :| 0 <= i <= |dir| && p == dir[..i];
        assert !IsFile(nodes, dir[..i]);
      }
    }
    forall p | p in after && p != [] ensures IsDirectory(after, Parent(p)) {
      if p in nodes {
        assert Parent(p) in nodes;
      } else {
        var i :| 0 <= i <= |dir| && p == dir[..i];
        assert Parent(p) == dir[..i - 1];
        assert Parent(p) in Prefixes(dir);
      }
    }
  }

  // ---- One storage operation ----

  datatype Operation = Put(key: string, bytes: Bytes) | Get(key: string) | Delete(key: string) | Exists(key: string)

  datatype StorageError = BadKey(error: KeyError) | DiskError

  datatype Response = Written(absPath: string) | Content(bytes: Bytes) | Deleted | Found(present: bool)

  type Outcome = Result<Response, StorageError>

  /** `put` once the key is resolved: make the parent directories, then write. */
  function PutAt(nodes: Nodes, p: Location, bytes: Bytes): (Nodes, bool) {
    match MakeDirectories(nodes, DirectoryName(p))
    case None => (nodes, false)
    case Some(made) =>
      match WriteFile(made, p, bytes)
      case None => (made, false)
      case Some(written) => (written, true)
  }

  /** An operation on a resolved key; a failed unlink is swallowed. */
  function Act(nodes: Nodes, p: Location, abs: string, op: Operation): (Nodes, Outcome) {
    match op
    case Put(_, bytes) =>
      var (after, ok) := PutAt(nodes, p, bytes);
      (after, if ok then Ok(Written(abs)) else Err(DiskError))
    case Get(_) => (nodes, if IsFile(nodes, p) then Ok(Content(nodes[p].bytes)) else Err(DiskError))
    case Delete(_) => (match Unlink(nodes, p) case None => nodes case Some(after) => after, Ok(Deleted))
    case Exists(_) => (nodes, Ok(Found(p in nodes)))
  }

  function Perform(nodes: Nodes, root: string, op: Operation): (Nodes, Outcome) {
    match ResolveKey(root, op.key)
    case Err(e) => (nodes, Err(BadKey(e)))
    case Ok(abs) => Act(nodes, Locate(abs), abs, op)
  }

  // ---- The reference: a map from segment lists to bytes, beside the directories made so far ----

  datatype Catalogue = Catalogue(files: map<Location, Bytes>, directories: set<Location>)

  predicate HasFileAbove(c: Catalogue, names: Location) {
    exists i | 0 <= i < |names| :: names[..i] in c.files
  }

  predicate CanPut(c: Catalogue, names: Location) {
    !HasFileAbove(c, names) && names !in c.directories
  }

  function WithFile(c: Catalogue, names: Location, bytes: Bytes): Catalogue {
    Catalogue(c.files[names := bytes], c.directories + (Prefixes(names) - {names}))
  }

  function Answer(c: Catalogue, names: Location, abs: string, op: Operation): (Catalogue, Outcome) {
    match op
    case Put(_, bytes) =>
      if CanPut(c, names) then (WithFile(c, names, bytes), Ok(Written(abs))) else (c, Err(DiskError))
    case Get(_) => (c, if names in c.files then Ok(Content(c.files[names])) else Err(DiskError))
    case Delete(_) => (c.(files := c.files - {names}), Ok(Deleted))
    case Exists(_) => (c, Ok(Found(names in c.files || names in c.directories)))
  }

  /** What the map answers to an operation below the storage root at `base`. */
  ghost function Consult(c: Catalogue, base: Location, op: Operation): (Catalogue, Outcome) {
    if !Acceptable(op.key) then (c, Err(BadKey(Complaint(op.key))))
    else Answer(c, Names(op.key), Absolute(base + Names(op.key)), op)
  }

  /** The part of the tree at and below the storage root, relative to it. */
  function Below(nodes: Nodes, base: Location): (below: set<Location>)
    ensures forall k :: k in below <==> base + k in nodes
  {
    var below := set p | p in nodes && base <= p :: p[|base|..];
    assert forall k | base + k in nodes :: (base + k)[|base|..] == k;
    assert forall p | p in nodes && base <= p :: p == base + p[|base|..];
    below
  }

  function View(nodes: Nodes, base: Location): Catalogue {
    Catalogue(
      map k | k in Below(nodes, base) && nodes[base + k].File? :: nodes[base + k].bytes,
      set k | k in Below(nodes, base) && nodes[base + k].Directory?)
  }

  /** No file stands where the storage root's own ancestors must be directories. */
  ghost predicate RootReachable(nodes: Nodes, base: Location) {
    forall i | 0 <= i < |base| :: !IsFile(nodes, base[..i])
  }

  ghost predicate Sound(nodes: Nodes, base: Location) {
    && AllPlain(base) && base != []
    && WellFormed(nodes)
    && RootReachable(nodes, base)
  }

  /** A well-formed tree holds no file that is a proper ancestor of another entry. */
  lemma NoNestedFiles(nodes: Nodes, base: Location)
    requires WellFormed(nodes)
    ensures forall k | k in View(nodes, base).files :: !HasFileAbove(View(nodes, base), k)
  {
    forall k, i | k in View(nodes, base).files && 0 <= i < |k| ensures k[..i] !in View(nodes, base).files {
      AncestorsAreDirectories(nodes, base + k, |base| + i);
      assert (base + k)[..|base| + i] == base + k[..i];
    }
  }

  lemma BlockedExactly(nodes: Nodes, base: Location, names: Location)
    requires Sound(nodes, base)
    ensures (exists i | 0 <= i < |base + names| :: IsFile(nodes, (base + names)[..i]))
       <==> HasFileAbove(View(nodes, base), names)
  {
    var p := base + names;
    assert forall i | 0 <= i < |base| :: p[..i] == base[..i];
    if i :| 0 <= i < |p| && IsFile(nodes, p[..i]) {
      assert p[..i] == base + names[..i - |base|];
      assert names[..i - |base|] in View(nodes, base).files;
    }
    if HasFileAbove(View(nodes, base), names) {
      var i :| 0 <= i < |names| && names[..i] in View(nodes, base).files;
      assert p[..|base| + i] == base + names[..i];
    }
  }

  /** To be the view is to agree on every name list. */
  lemma ViewIs(nodes: Nodes, base: Location, c: Catalogue)
    requires forall k :: k in c.files <==> IsFile(nodes, base + k)
    requires forall k | k in c.files :: base + k in nodes && nodes[base + k] == File(c.files[k])
    requires forall k :: k in c.directories <==> IsDirectory(nodes, base + k)
    ensures View(nodes, base) == c
  {
  }

  lemma SameBelow(base: Location, k: Location, names: Location)
    ensures base + k == base + names <==> k == names
  {
    assert (base + k)[|base|..] == k && (base + names)[|base|..] == names;
  }

  /** Making the parent directories of an entry adds its proper prefixes and touches no file. */
  lemma ParentsMade(nodes: Nodes, base: Location, names: Location)
    requires Sound(nodes, base)
    requires MakeDirectories(nodes, Parent(base + names)).Some?
    ensures var made := MakeDirectories(nodes, Parent(base + names)).value;
            && Sound(made, base)
            && IsDirectory(made, Parent(base + names))
            && (IsDirectory(made, base + names) <==> names in View(nodes, base).directories)
            && View(made, base) == Catalogue(View(nodes, base).files,
                                             View(nodes, base).directories + (Prefixes(names) - {names}))
  {
    var p := base + names;
    var made := MakeDirectories(nodes, Parent(p)).value;
    MakeDirectoriesKeeps(nodes, Parent(p));
    assert Parent(p)[..|p| - 1] == Parent(p);
    assert Parent(p) in Prefixes(Parent(p));
    assert forall q :: IsFile(made, q) <==> IsFile(nodes, q);
    assert forall q :: IsDirectory(made, q) <==> IsDirectory(nodes, q) || q in Prefixes(Parent(p));
    BelowPrefix(base, names, names);
    ViewOfMade(nodes, made, base, names);
  }

  lemma ViewOfMade(nodes: Nodes, made: Nodes, base: Location, names: Location)
    requires base != []
    requires forall q :: IsFile(made, q) <==> IsFile(nodes, q)
    requires forall q | IsFile(nodes, q) :: q in made && made[q] == nodes[q]
    requires forall q :: IsDirectory(made, q) <==> IsDirectory(nodes, q) || q in Prefixes(Parent(base + names))
    ensures View(made, base) == Catalogue(View(nodes, base).files,
                                          View(nodes, base).directories + (Prefixes(names) - {names}))
  {
    var c := Catalogue(View(nodes, base).files, View(nodes, base).directories + (Prefixes(names) - {names}));
    forall k ensures k in c.directories <==> IsDirectory(made, base + k) {
      BelowPrefix(base, names, k);
    }
    ViewIs(made, base, c);
  }

  lemma BelowPrefix(base: Location, names: Location, k: Location)
    requires base != []
    ensures base + k in Prefixes(Parent(base + names)) <==> k in Prefixes(names) - {names}
  {
    var parent := Parent(base + names);
    if base + k in Prefixes(parent) {
      var i :| 0 <= i <= |parent| && base + k == parent[..i];
      assert |base| <= i && parent[..i] == (base + names)[..i] == base + names[..i - |base|];
      SameBelow(base, k, names[..i - |base|]);
    }
    if k in Prefixes(names) - {names} {
      var j :| 0 <= j <= |names| && k == names[..j];
      assert j < |names| by {
        assert names[..|names|] == names;
      }
      assert base + k == parent[..|base| + j];
    }
  }

  lemma FileWritten(nodes: Nodes, base: Location, names: Location, bytes: Bytes)
    requires Sound(nodes, base)
    requires IsDirectory(nodes, Parent(base + names)) && !IsDirectory(nodes, base + names)
    ensures var after := nodes[base + names := File(bytes)];
            && Sound(after, base)
            && View(after, base) == View(nodes, base).(files := View(nodes, base).files[names := bytes])
  {
    var p := base + names;
    var after := nodes[p := File(bytes)];
    forall k ensures base + k == p <==> k == names {
      SameBelow(base, k, names);
    }
    ViewIs(after, base, View(nodes, base).(files := View(nodes, base).files[names := bytes]));
  }

  lemma RemovalKeeps(nodes: Nodes, p: Location)
    requires WellFormed(nodes) && IsFile(nodes, p)
    ensures WellFormed(nodes - {p})
    ensures forall q | q != p :: IsFile(nodes - {p}, q) == IsFile(nodes, q) && IsDirectory(nodes - {p}, q) == IsDirectory(nodes, q)
  {
    var after := nodes - {p};
    forall q | q in after && q != [] ensures IsDirectory(after, Parent(q)) {
      assert IsDirectory(nodes, Parent(q));
    }
  }

  lemma FileRemoved(nodes: Nodes, base: Location, names: Location)
    requires Sound(nodes, base) && IsFile(nodes, base + names)
    ensures var after := nodes - {base + names};
            && Sound(after, base)
            && View(after, base) == View(nodes, base).(files := View(nodes, base).files - {names})
  {
    var p := base + names;
    var after := nodes - {p};
    forall k ensures base + k == p <==> k == names {
      SameBelow(base, k, names);
    }
    RemovalKeeps(nodes, p);
    ViewIs(after, base, View(nodes, base).(files := View(nodes, base).files - {names}));
  }

  lemma ParentsExist(nodes: Nodes, p: Location)
    requires WellFormed(nodes) && p in nodes && p != []
    ensures MakeDirectories(nodes, Parent(p)) == Some(nodes)
  {
    forall i | 0 <= i <= |Parent(p)| ensures IsDirectory(nodes, Parent(p)[..i]) {
      AncestorsAreDirectories(nodes, p, i);
      assert p[..i] == Parent(p)[..i];
    }
    assert MakeDirectories(nodes, Parent(p)).Some?;
    MakeDirectoriesKeeps(nodes, Parent(p));
    assert nodes.Keys + Prefixes(Parent(p)) == nodes.Keys;
    assert MakeDirectories(nodes, Parent(p)).value == nodes;
  }

  /** A put whose path is blocked, or already a directory, leaves the view as it was. */
  lemma PutRefused(nodes: Nodes, base: Location, names: Location, bytes: Bytes)
    requires Sound(nodes, base) && !CanPut(View(nodes, base), names)
    ensures PutAt(nodes, base + names, bytes) == (nodes, false)
  {
    var p := base + names;
    BlockedExactly(nodes, base, names);
    assert forall i | 0 <= i < |p| :: p[..i] == Parent(p)[..i];
    if p in nodes {
      ParentsExist(nodes, p);
    }
  }

  lemma PutAccepted(nodes: Nodes, base: Location, names: Location, bytes: Bytes)
    requires Sound(nodes, base) && CanPut(View(nodes, base), names)
    ensures var (after, ok) := PutAt(nodes, base + names, bytes);
            ok && Sound(after, base) && View(after, base) == WithFile(View(nodes, base), names, bytes)
  {
    var p := base + names;
    BlockedExactly(nodes, base, names);
    assert forall i | 0 <= i < |p| :: p[..i] == Parent(p)[..i];
    ParentsMade(nodes, base, names);
    FileWritten(MakeDirectories(nodes, Parent(p)).value, base, names, bytes);
  }

  /** One operation on the tree is one operation on the map, with the same answer. */
  lemma ActRefines(nodes: Nodes, base: Location, names: Location, abs: string, op: Operation)
    requires Sound(nodes, base)
    ensures var (after, outcome) := Act(nodes, base + names, abs, op);
            Sound(after, base) && (View(after, base), outcome) == Answer(View(nodes, base), names, abs, op)
  {
    match op
    case Put(_, bytes) =>
      if CanPut(View(nodes, base), names) {
        PutAccepted(nodes, base, names, bytes);
      } else {
        PutRefused(nodes, base, names, bytes);
      }
    case Delete(_) =>
      if IsFile(nodes, base + names) {
        FileRemoved(nodes, base, names);
      } else {
        assert View(nodes, base).files - {names} == View(nodes, base).files;
      }
    case Get(_) =>
    case Exists(_) =>
  }

  /** The same, from the key: resolution picks the entry of the key's names and nothing else. */
  lemma OperationRefines(nodes: Nodes, base: Location, op: Operation)
    requires Sound(nodes, base)
    ensures var (after, outcome) := Perform(nodes, Absolute(base), op);
            Sound(after, base) && (View(after, base), outcome) == Consult(View(nodes, base), base, op)
  {
    AcceptedExactly(base, op.key);
    if Acceptable(op.key) {
      LocateAbsolute(base + Names(op.key));
      ActRefines(nodes, base, Names(op.key), Absolute(base + Names(op.key)), op);
    }
  }

  // ---- What each operation does to the tree ----

  /** A put succeeds exactly when no file stands above the entry and no directory in its place; then the entry holds
      the bytes, its ancestors are directories, and every other file is what it was. Otherwise nothing changes. */
  lemma PutExactly(nodes: Nodes, base: Location, key: string, bytes: Bytes)
    requires Sound(nodes, base) && Acceptable(key)
    ensures var p := base + Names(key);
            var (after, r) := Perform(nodes, Absolute(base), Put(key, bytes));
            var free := (forall i | 0 <= i < |p| :: !IsFile(nodes, p[..i])) && !IsDirectory(nodes, p);
            && (r == Ok(Written(Absolute(p))) <==> free)
            && (!free ==> r == Err(DiskError) && after == nodes)
            && (free ==>
                  && p in after && after[p] == File(bytes)
                  && (forall q | q != p && IsFile(nodes, q) :: q in after && after[q] == nodes[q])
                  && (forall q | q != p && IsFile(after, q) :: IsFile(nodes, q))
                  && (forall q :: IsDirectory(after, q) <==> IsDirectory(nodes, q) || (q < p)))
  {
    var names := Names(key);
    AcceptedExactly(base, key);
    LocateAbsolute(base + names);
    BlockedExactly(nodes, base, names);
    AtBase(nodes, base, names);
    if CanPut(View(nodes, base), names) {
      PutAtFree(nodes, base + names, bytes);
    } else {
      PutRefused(nodes, base, names, bytes);
    }
  }

  lemma AtBase(nodes: Nodes, base: Location, names: Location)
    ensures IsDirectory(nodes, base + names) <==> names in View(nodes, base).directories
  {
  }

  lemma PrefixOfParent(p: Location, q: Location)
    requires p != []
    ensures q in Prefixes(Parent(p)) <==> q < p
  {
    if q < p {
      assert q == Parent(p)[..|q|];
    }
  }

  lemma PutAtFree(nodes: Nodes, p: Location, bytes: Bytes)
    requires WellFormed(nodes) && p != [] && !IsDirectory(nodes, p)
    requires forall i | 0 <= i < |p| :: !IsFile(nodes, p[..i])
    ensures var (after, ok) := PutAt(nodes, p, bytes);
            && ok && p in after && after[p] == File(bytes)
            && (forall q | q != p && IsFile(nodes, q) :: q in after && after[q] == nodes[q])
            && (forall q | q != p && IsFile(after, q) :: IsFile(nodes, q))
            && (forall q :: IsDirectory(after, q) <==> IsDirectory(nodes, q) || (q < p))
  {
    assert forall i | 0 <= i < |p| :: Parent(p)[..i] == p[..i];
    MakeDirectoriesKeeps(nodes, Parent(p));
    forall q ensures q in Prefixes(Parent(p)) <==> q < p {
      PrefixOfParent(p, q);
    }
    assert Parent(p) < p;
  }

  /** Reading gives the bytes of a file and fails otherwise, existence is that of any entry, deletion removes a file
      and never complains, a bad key is refused; and none of them touches anything else. */
  lemma OthersExactly(nodes: Nodes, base: Location, key: string)
    requires Sound(nodes, base)
    ensures var p, root := base + Names(key), Absolute(base);
            && (Acceptable(key) ==>
                  && Perform(nodes, root, Get(key))
                     == (nodes, if IsFile(nodes, p) then Ok(Content(nodes[p].bytes)) else Err(DiskError))
                  && Perform(nodes, root, Exists(key)) == (nodes, Ok(Found(p in nodes)))
                  && Perform(nodes, root, Delete(key)) == (if IsFile(nodes, p) then nodes - {p} else nodes, Ok(Deleted)))
            && (!Acceptable(key) ==>
                  forall op: Operation | op.key == key :: Perform(nodes, root, op) == (nodes, Err(BadKey(Complaint(key)))))
  {
    AcceptedExactly(base, key);
    if Acceptable(key) {
      LocateAbsolute(base + Names(key));
    }
  }

  // ---- Runs ----

  function PerformAll(nodes: Nodes, root: string, ops: seq<Operation>): (Nodes, seq<Outcome>) {
    if ops == [] then (nodes, [])
    else
      var (before, outcomes) := PerformAll(nodes, root, ops[..|ops| - 1]);
      var (after, outcome) := Perform(before, root, ops[|ops| - 1]);
      (after, outcomes + [outcome])
  }

  ghost function ConsultAll(c: Catalogue, base: Location, ops: seq<Operation>): (Catalogue, seq<Outcome>) {
    if ops == [] then (c, [])
    else
      var (before, outcomes) := ConsultAll(c, base, ops[..|ops| - 1]);
      var (after, outcome) := Consult(before, base, ops[|ops| - 1]);
      (after, outcomes + [outcome])
  }

  /** Over any run of put, get, delete and exists the store answers as the map does, ends as the map does,
      and never holds a file that is a proper ancestor of another. */
  lemma {:induction false} StoreRefinesMap(nodes: Nodes, base: Location, ops: seq<Operation>)
    requires Sound(nodes, base)
    ensures var (after, outcomes) := PerformAll(nodes, Absolute(base), ops);
            && Sound(after, base)
            && (View(after, base), outcomes) == ConsultAll(View(nodes, base), base, ops)
            && forall k | k in View(after, base).files :: !HasFileAbove(View(after, base), k)
  {
    if ops == [] {
      NoNestedFiles(nodes, base);
    } else {
      var init := ops[..|ops| - 1];
      StoreRefinesMap(nodes, base, init);
      var before := PerformAll(nodes, Absolute(base), init).0;
      OperationRefines(before, base, ops[|ops| - 1]);
      NoNestedFiles(PerformAll(nodes, Absolute(base), ops).0, base);
    }
  }

  lemma LongPrefix(base: Location, names: Location, i: nat)
    requires i < |base + names|
    ensures Parent(base + names)[..i] == (base + names)[..i]
    ensures if i < |base| then Parent(base + names)[..i] == base[..i] else base <= Parent(base + names)[..i]
  {
  }

  lemma PutOutside(nodes: Nodes, base: Location, names: Location, bytes: Bytes, p: Location)
    requires Sound(nodes, base) && !(base <= p)
    ensures var after := PutAt(nodes, base + names, bytes).0;
            && (p in nodes ==> p in after && after[p] == nodes[p])
            && (p in after && p !in nodes ==> after[p] == Directory && p <= base)
  {
    var parent := Parent(base + names);
    if MakeDirectories(nodes, parent).Some? {
      MakeDirectoriesKeeps(nodes, parent);
      if p in Prefixes(parent) {
        var i :| 0 <= i <= |parent| && p == parent[..i];
        LongPrefix(base, names, i);
      }
    }
  }

  lemma DeleteOutside(nodes: Nodes, base: Location, names: Location, abs: string, key: string, p: Location)
    requires !(base <= p)
    ensures var after := Act(nodes, base + names, abs, Delete(key)).0;
            (p in nodes <==> p in after) && (p in nodes ==> after[p] == nodes[p])
  {
    assert p != base + names;
  }

  /** No operation changes anything outside the storage root; a put may create the root's own ancestors. */
  lemma OutsideUntouched(nodes: Nodes, base: Location, op: Operation, p: Location)
    requires Sound(nodes, base)
    requires !(base <= p)
    ensures var after := Perform(nodes, Absolute(base), op).0;
            && (p in nodes ==> p in after && after[p] == nodes[p])
            && (p in after && p !in nodes ==> after[p] == Directory && p <= base)
  {
    AcceptedExactly(base, op.key);
    if Acceptable(op.key) {
      var names := Names(op.key);
      LocateAbsolute(base + names);
      match op
      case Put(_, bytes) => PutOutside(nodes, base, names, bytes, p);
      case Delete(key) => DeleteOutside(nodes, base, names, Absolute(base + names), key, p);
      case _ =>
    }
  }

  /** Two keys with the same names are one entry: what is put under either is read back under the other, and
      every entry of another name keeps its bytes. */
  lemma AliasesShareOneEntry(nodes: Nodes, base: Location, key: string, alias: string, other: string, bytes: Bytes)
    requires Sound(nodes, base)
    requires Acceptable(alias) && Names(alias) == Names(key)
    requires Acceptable(other) && Names(other) != Names(key)
    ensures var (after, outcome) := Perform(nodes, Absolute(base), Put(key, bytes));
            && (outcome.Ok? ==> Perform(after, Absolute(base), Get(alias)).1 == Ok(Content(bytes)))
            && Perform(after, Absolute(base), Get(other)).1 == Perform(nodes, Absolute(base), Get(other)).1
  {
    var after := Perform(nodes, Absolute(base), Put(key, bytes)).0;
    OperationRefines(nodes, base, Put(key, bytes));
    OperationRefines(after, base, Get(alias));
    OperationRefines(after, base, Get(other));
    OperationRefines(nodes, base, Get(other));
  }

  // ---- Keys that name the storage root itself ----

  /** An acceptable key that normalises to the root, like `.` or `a/..`. */
  ghost predicate NamesRoot(key: string) {
    Acceptable(key) && Names(key) == []
  }

  /** Exactly when the storage root is a file after an operation: when it was one and no key of the root is deleted,
      or when it did not exist and such a key is put. */
  lemma RootBecomesFileExactly(nodes: Nodes, base: Location, op: Operation)
    requires Sound(nodes, base)
    ensures IsFile(Perform(nodes, Absolute(base), op).0, base) <==>
              if IsFile(nodes, base) then !(op.Delete? && NamesRoot(op.key))
              else op.Put? && NamesRoot(op.key) && base !in nodes
  {
    var after := Perform(nodes, Absolute(base), op).0;
    OperationRefines(nodes, base, op);
    assert base + [] == base;
    assert IsFile(nodes, base) <==> [] in View(nodes, base).files;
    assert IsFile(after, base) <==> [] in View(after, base).files;
    assert !HasFileAbove(View(nodes, base), []);
  }

  /** While the storage root is a file every put under a key that names something is refused and changes nothing. */
  lemma FileRootRefusesNames(nodes: Nodes, base: Location, key: string, bytes: Bytes)
    requires Sound(nodes, base) && IsFile(nodes, base)
    requires Acceptable(key) && Names(key) != []
    ensures Perform(nodes, Absolute(base), Put(key, bytes)) == (nodes, Err(DiskError))
  {
    AcceptedExactly(base, key);
    LocateAbsolute(base + Names(key));
    assert base + [] == base && Names(key)[..0] == [];
    assert [] in View(nodes, base).files;
    PutRefused(nodes, base, Names(key), bytes);
  }

  /** A name a caller would use for a file: plain, and free of NUL and a leading backslash. */
  predicate IsFileName(name: string) {
    Plain(name) && '\0' !in name && name[0] != '\\'
  }

  lemma StepsInside(steps: seq<string>, names: Location)
    requires Walk(steps) == Stack(0, names)
    ensures !Escapes(steps)
  {
    WalkDepth(steps);
  }

  lemma DotNamesRoot()
    ensures NamesRoot(".")
  {
    SplitNoSlash(".");
    assert Steps(["."]) == [];
    StepsInside([], []);
  }

  /** An ordinary name is the key of the entry it names, and followed by `/..` a key of the root. */
  lemma NameIsKey(name: string)
    requires IsFileName(name)
    ensures Acceptable(name) && Names(name) == [name]
  {
    assert name[0] in name;
    SplitNoSlash(name);
    StepsOfPlain([name]);
    WalkOfPlain([name]);
    StepsInside([name], [name]);
  }

  lemma SplitBack(name: string)
    requires NoSlash(name)
    ensures Split(name + "/" + "..") == [name, ".."]
  {
    SplitNoSlash(name);
    SplitNoSlash("..");
    SplitAtSlash(name, "..");
  }

  lemma StepsBack(name: string)
    requires Plain(name)
    ensures Steps([name, ".."]) == [name, ".."]
  {
    assert [name, ".."][..1] == [name] && [name][..0] == [];
    assert Steps([name]) == [] + [name];
  }

  lemma NameAndBackSteps(name: string)
    requires Plain(name)
    ensures Steps(Split(name + "/..")) == [name, ".."]
  {
    assert name + "/" + ".." == name + "/..";
    SplitBack(name);
    StepsBack(name);
  }

  lemma WalkBack(name: string)
    requires Plain(name)
    ensures Walk([name, ".."]) == Stack(0, [])
  {
    WalkOfPlain([name]);
    assert [name, ".."][..1] == [name];
  }

  lemma NameAndBackNamesRoot(name: string)
    requires IsFileName(name)
    ensures NamesRoot(name + "/..")
  {
    var key := name + "/..";
    assert name[0] in name;
    NameAndBackSteps(name);
    WalkBack(name);
    StepsInside([name, ".."], []);
    assert key[0] == name[0] && '\0' !in key;
  }

  /** In an empty tree a single put under `.` turns the storage root into a file, and then no name can be put. */
  lemma DotBlocksFreshStore(base: Location, name: string, bytes: Bytes, more: Bytes)
    requires AllPlain(base) && base != [] && IsFileName(name)
    ensures var empty: Nodes := map[[] := Directory];
            var after := Perform(empty, Absolute(base), Put(".", bytes)).0;
            && Sound(empty, base)
            && IsFile(after, base)
            && Perform(after, Absolute(base), Put(name, more)) == (after, Err(DiskError))
  {
    var empty: Nodes := map[[] := Directory];
    DotNamesRoot();
    NameIsKey(name);
    assert forall i | 0 <= i < |base| :: !IsFile(empty, base[..i]);
    RootBecomesFileExactly(empty, base, Put(".", bytes));
    OperationRefines(empty, base, Put(".", bytes));
    FileRootRefusesNames(Perform(empty, Absolute(base), Put(".", bytes)).0, base, name, more);
  }

  // ---- The service object over the mutable tree ----

  class FileTree {
    var nodes: Nodes

    constructor ()
      ensures nodes == map[[] := Directory] && WellFormed(nodes)
    {
      nodes := map[[] := Directory];
    }

    method Mkdir(dir: Location) returns (ok: bool)
      modifies this
      ensures ok == MakeDirectories(old(nodes), dir).Some?
      ensures nodes == if ok then MakeDirectories(old(nodes), dir).value else old(nodes)
    {
      var made := MakeDirectories(nodes, dir);
      ok := made.Some?;
      if ok {
        nodes := made.value;
      }
    }

    method Write(p: Location, bytes: Bytes) returns (ok: bool)
      modifies this
      ensures ok == WriteFile(old(nodes), p, bytes).Some?
      ensures nodes == if ok then WriteFile(old(nodes), p, bytes).value else old(nodes)
    {
      var written := WriteFile(nodes, p, bytes);
      ok := written.Some?;
      if ok {
        nodes := written.value;
      }
    }

    method Remove(p: Location) returns (ok: bool)
      modifies this
      ensures ok == Unlink(old(nodes), p).Some?
      ensures nodes == if ok then Unlink(old(nodes), p).value else old(nodes)
    {
      var removed := Unlink(nodes, p);
      ok := removed.Some?;
      if ok {
        nodes := removed.value;
      }
    }
  }

  class LocalStorageService {
    const root: string
    const tree: FileTree
    ghost const base: Location

    ghost predicate Valid()
      reads tree
    {
      root == Absolute(base) && Sound(tree.nodes, base)
    }

    ghost function Catalogue(): Catalogue
      reads tree
    {
      View(tree.nodes, base)
    }

    /** `path.resolve(rootDir)` against a working directory. */
    constructor (tree: FileTree, workingDirectory: string, rootDir: string)
      ensures this.tree == tree
      ensures root == Absolute(base) && AllPlain(base)
      ensures base == Normal(if "/" <= rootDir then rootDir else workingDirectory + "/" + rootDir).names
    {
      var full := if "/" <= rootDir then rootDir else workingDirectory + "/" + rootDir;
      this.tree := tree;
      root := Absolute(Normal(full).names);
      base := Normal(full).names;
      NormalIsPlain(full);
    }

    method Put(key: string, bytes: Bytes) returns (r: Outcome)
      requires Valid()
      modifies tree
      ensures Valid()
      ensures (Catalogue(), r) == Consult(old(Catalogue()), base, Operation.Put(key, bytes))
    {
      OperationRefines(tree.nodes, base, Operation.Put(key, bytes));
      var resolved := ResolveKey(root, key);
      if resolved.Err? {
        return Err(BadKey(resolved.error));
      }
      var p := Locate(resolved.value);
      var made := tree.Mkdir(DirectoryName(p));
      if !made {
        return Err(DiskError);
      }
      var written := tree.Write(p, bytes);
      r := if written then Ok(Written(resolved.value)) else Err(DiskError);
    }

    method Get(key: string) returns (r: Outcome)
      requires Valid()
      ensures (Catalogue(), r) == Consult(Catalogue(), base, Operation.Get(key))
    {
      OperationRefines(tree.nodes, base, Operation.Get(key));
      var resolved := ResolveKey(root, key);
      if resolved.Err? {
        return Err(BadKey(resolved.error));
      }
      var p := Locate(resolved.value);
      r := if IsFile(tree.nodes, p) then Ok(Content(tree.nodes[p].bytes)) else Err(DiskError);
    }

    method Delete(key: string) returns (r: Outcome)
      requires Valid()
      modifies tree
      ensures Valid()
      ensures (Catalogue(), r) == Consult(old(Catalogue()), base, Operation.Delete(key))
    {
      OperationRefines(tree.nodes, base, Operation.Delete(key));
      var resolved := ResolveKey(root, key);
      if resolved.Err? {
        return Err(BadKey(resolved.error));
      }
      var removed := tree.Remove(Locate(resolved.value));
      r := Ok(Deleted);
    }

    method Exists(key: string) returns (r: Outcome)
      requires Valid()
      ensures (Catalogue(), r) == Consult(Catalogue(), base, Operation.Exists(key))
    {
      OperationRefines(tree.nodes, base, Operation.Exists(key));
      var resolved := ResolveKey(root, key);
      if resolved.Err? {
        return Err(BadKey(resolved.error));
      }
      r := Ok(Found(Locate(resolved.value) in tree.nodes));
    }
  }
}
