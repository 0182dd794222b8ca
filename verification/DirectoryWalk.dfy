/** Summing the sizes of a directory tree over one session, with an explicit stack of paths. */
module DirectoryWalk {
  import opened Common
  import opened DirectoryPages

  type Path = Name

  const SEPARATOR: Scalar := 0x2F
  const BACKSLASH: Scalar := 0x5C
  const DOT: Scalar := 0x2E
  const NUL: Scalar := 0

  /** Names the walk ignores: the two relative entries and anything that is not one component. */
  predicate Skipped(name: Name) {
    name == [] || name == [DOT] || name == [DOT, DOT] || SEPARATOR in name || BACKSLASH in name || NUL in name
  }

  predicate IsDirectory(e: Entry) { e.attributes / 0x10 % 2 == 1 }

  predicate IsReparse(e: Entry) { e.attributes / 0x400 % 2 == 1 }

  /** Kept is every name that is one path component: not empty, not relative, and free of separators and
      of NUL. */
  lemma OneComponentIsKept(name: Name)
    ensures !Skipped(name) <==>
              name !in {[], ['.' as int], ['.' as int, '.' as int]} && forall c :: c in name ==> c !in {'/' as int, '\\' as int, 0}
  {}

  /** Bit 4 of the attributes marks a directory, bit 10 a reparse point, whatever the other bits are. */
  lemma AttributeBits(e: Entry, high: nat, reparse: nat, middle: nat, directory: nat, low: nat)
    requires e.attributes == high * 0x800 + reparse * 0x400 + middle * 0x20 + directory * 0x10 + low
    requires reparse < 2 && middle < 0x20 && directory < 2 && low < 0x10
    ensures IsDirectory(e) <==> directory == 1
    ensures IsReparse(e) <==> reparse == 1
  {
    assert e.attributes / 0x10 == (high * 0x40 + reparse * 0x20 + middle) * 2 + directory;
    assert e.attributes / 0x400 == high * 2 + reparse;
  }

  /** An entry the walk descends into. */
  predicate Descends(e: Entry) { !Skipped(e.name) && IsDirectory(e) && !IsReparse(e) }

  /** The bytes one entry contributes itself. */
  function FileBytes(e: Entry): nat {
    if Skipped(e.name) || IsDirectory(e) then 0 else e.endOfFile
  }

  function Join(path: Path, name: Name): Path {
    if path == [] then name else path + [SEPARATOR] + name
  }

  /** A tree on the server: what a listing says of a node, and its own listing. */
  datatype Node = Node(entry: Entry, children: seq<Node>)

  function Listing(nodes: seq<Node>): seq<Entry> {
    if nodes == [] then [] else [nodes[0].entry] + Listing(nodes[1..])
  }

  /** The recursive sum of file sizes; ignored names and reparse points contribute nothing. */
  function TotalSize(nodes: seq<Node>): nat
    decreases nodes
  {
    if nodes == [] then 0
    else FileBytes(nodes[0].entry) + (if Descends(nodes[0].entry) then TotalSize(nodes[0].children) else 0) + TotalSize(nodes[1..])
  }

  /** Every directory below `path` the walk has to visit, with its path. */
  function Folders(path: Path, nodes: seq<Node>): seq<(Path, seq<Node>)>
    decreases nodes
  {
    if nodes == [] then []
    else
      (if Descends(nodes[0].entry) then
         [(Join(path, nodes[0].entry.name), nodes[0].children)] + Folders(Join(path, nodes[0].entry.name), nodes[0].children)
       else [])
      + Folders(path, nodes[1..])
  }

  function AllFolders(path: Path, nodes: seq<Node>): seq<(Path, seq<Node>)> {
    [(path, nodes)] + Folders(path, nodes)
  }

  /** Directories that share a parent have different names. */
  predicate DistinctNames(nodes: seq<Node>)
    decreases nodes
  {
    && (forall i, j :: 0 <= i < j < |nodes| && Descends(nodes[i].entry) && Descends(nodes[j].entry) ==>
          nodes[i].entry.name != nodes[j].entry.name)
    && forall i :: 0 <= i < |nodes| ==> DistinctNames(nodes[i].children)
  }

  /** `path` lies in the subtree of `top`. */
  predicate Under(path: Path, top: Path) {
    |top| <= |path| && path[..|top|] == top && (|top| < |path| ==> path[|top|] == SEPARATOR)
  }

  lemma UnderJoin(p: Path, top: Path, name: Name)
    requires Under(p, Join(top, name)) && name != []
    ensures |p| > |top| && (top != [] ==> Under(p, top))
  {
    var q := Join(top, name);
    assert p[..|top|] == p[..|q|][..|top|] == top;
    assert p[|top|] == p[..|q|][|top|] == q[|top|];
  }

  function UpToSeparator(s: Path): Name {
    if s == [] || s[0] == SEPARATOR then [] else [s[0]] + UpToSeparator(s[1..])
  }

  lemma {:induction false} ComponentIs(s: Path, name: Name)
    requires SEPARATOR !in name && Under(s, name)
    ensures UpToSeparator(s) == name
  {
    if name != [] {
      assert s[0] == s[..|name|][0] == name[0];
      assert s[1..][..|name| - 1] == s[..|name|][1..] == name[1..];
      ComponentIs(s[1..], name[1..]);
      assert name == [name[0]] + name[1..];
    }
  }

  /** Only one component under a directory can lead to a path. */
  lemma SiblingsApart(p: Path, top: Path, a: Name, b: Name)
    requires SEPARATOR !in a && SEPARATOR !in b
    requires Under(p, Join(top, a)) && Under(p, Join(top, b))
    ensures a == b
  {
    var k := if top == [] then 0 else |top| + 1;
    UnderTail(p, top, a);
    UnderTail(p, top, b);
    ComponentIs(p[k..], a);
    ComponentIs(p[k..], b);
  }

  lemma UnderTail(p: Path, top: Path, name: Name)
    requires Under(p, Join(top, name))
    ensures var k := if top == [] then 0 else |top| + 1;
            k <= |p| && Under(p[k..], name)
  {
    var q := Join(top, name);
    var k := if top == [] then 0 else |top| + 1;
    assert p[k..][..|name|] == p[..|q|][k..] == q[k..] == name;
  }

  lemma FoldersHead(path: Path, nodes: seq<Node>)
    ensures nodes == [] ==> Folders(path, nodes) == []
    ensures nodes != [] ==>
              var top := Join(path, nodes[0].entry.name);
              Folders(path, nodes) ==
              (if Descends(nodes[0].entry) then AllFolders(top, nodes[0].children) else []) + Folders(path, nodes[1..])
  {
    hide Join, Descends;
  }

  /** Every directory below `path` lies under one of the directories `path` lists. */
  lemma {:induction false} FolderUnderSome(path: Path, nodes: seq<Node>, k: nat) returns (i: nat)
    requires k < |Folders(path, nodes)|
    ensures i < |nodes| && Descends(nodes[i].entry) && Under(Folders(path, nodes)[k].0, Join(path, nodes[i].entry.name))
    decreases nodes, 0
  {
    hide Under, Folders, AllFolders;
    FoldersHead(path, nodes);
    var top := Join(path, nodes[0].entry.name);
    var first := if Descends(nodes[0].entry) then AllFolders(top, nodes[0].children) else [];
    if k < |first| {
      i := 0;
      FolderUnder(top, nodes[0].children, k);
    } else {
      var j := FolderUnderSome(path, nodes[1..], k - |first|);
      i := j + 1;
    }
  }

  lemma {:induction false} FolderUnder(path: Path, nodes: seq<Node>, k: nat)
    requires k < |AllFolders(path, nodes)|
    ensures path != [] ==> Under(AllFolders(path, nodes)[k].0, path)
    ensures k > 0 ==> |AllFolders(path, nodes)[k].0| > |path|
    decreases nodes, 1
  {
    hide Folders;
    if k > 0 {
      var i := FolderUnderSome(path, nodes, k - 1);
      UnderJoin(Folders(path, nodes)[k - 1].0, path, nodes[i].entry.name);
    }
  }

  predicate Apart(folders: seq<(Path, seq<Node>)>) {
    forall i, j :: 0 <= i < j < |folders| ==> folders[i].0 != folders[j].0
  }

  /** No two directories of a tree have the same path. */
  lemma {:induction false} FoldersApart(path: Path, nodes: seq<Node>)
    requires DistinctNames(nodes)
    ensures Apart(Folders(path, nodes))
    decreases nodes, 0
  {
    hide Under;
    if nodes != [] {
      var name, all := nodes[0].entry.name, Folders(path, nodes);
      var top := Join(path, name);
      var first := if Descends(nodes[0].entry) then AllFolders(top, nodes[0].children) else [];
      var rest := Folders(path, nodes[1..]);
      TailDistinct(nodes);
      FoldersApart(path, nodes[1..]);
      if Descends(nodes[0].entry) {
        AllApart(top, nodes[0].children);
      }
      assert all == first + rest;
      forall i, j | 0 <= i < |first| && 0 <= j < |rest| ensures first[i].0 != rest[j].0 {
        FolderUnder(top, nodes[0].children, i);
        var n := FolderUnderSome(path, nodes[1..], j);
        if first[i].0 == rest[j].0 {
          SiblingsApart(first[i].0, path, name, nodes[1..][n].entry.name);
        }
      }
      ApartJoin(first, rest);
    }
  }

  lemma TailDistinct(nodes: seq<Node>)
    requires DistinctNames(nodes) && nodes != []
    ensures DistinctNames(nodes[1..]) && DistinctNames(nodes[0].children)
    ensures forall n :: 0 <= n < |nodes| - 1 && Descends(nodes[0].entry) && Descends(nodes[1..][n].entry) ==>
              nodes[0].entry.name != nodes[1..][n].entry.name
  {}

  lemma ApartJoin(a: seq<(Path, seq<Node>)>, b: seq<(Path, seq<Node>)>)
    requires Apart(a) && Apart(b) && forall i, j :: 0 <= i < |a| && 0 <= j < |b| ==> a[i].0 != b[j].0
    ensures Apart(a + b)
  {}

  lemma {:induction false} AllApart(path: Path, nodes: seq<Node>)
    requires DistinctNames(nodes)
    ensures Apart(AllFolders(path, nodes))
    decreases nodes, 1
  {
    hide Folders, Under, DistinctNames;
    FoldersApart(path, nodes);
    var all := AllFolders(path, nodes);
    forall i, j | 0 <= i < j < |all| ensures all[i].0 != all[j].0 {
      FolderUnder(path, nodes, j);
      if i > 0 {
        assert all[i] == Folders(path, nodes)[i - 1] && all[j] == Folders(path, nodes)[j - 1];
      }
    }
  }

  /** The paths one listing adds to the stack. */
  function Descents(path: Path, entries: seq<Entry>): seq<Path> {
    if entries == [] then []
    else (if Descends(entries[0]) then [Join(path, entries[0].name)] else []) + Descents(path, entries[1..])
  }

  function SumBytes(entries: seq<Entry>): nat {
    if entries == [] then 0 else FileBytes(entries[0]) + SumBytes(entries[1..])
  }

  lemma Regroup<T>(a: seq<T>, b: seq<T>, c: seq<T>)
    ensures a + (b + c) == (a + b) + c
  {}

  lemma {:induction false} ListingsJoin(path: Path, a: seq<Entry>, b: seq<Entry>)
    ensures Descents(path, a + b) == Descents(path, a) + Descents(path, b)
    ensures SumBytes(a + b) == SumBytes(a) + SumBytes(b)
  {
    hide Descends, FileBytes, Join;
    if a == [] {
      assert a + b == b;
    } else {
      ListingsJoin(path, a[1..], b);
      assert (a + b)[1..] == a[1..] + b;
      Regroup(if Descends(a[0]) then [Join(path, a[0].name)] else [], Descents(path, a[1..]), Descents(path, b));
    }
  }

  /** `accumulate_directory_entries`: subdirectories are pushed, file sizes added with saturation. */
  method AccumulateEntries(entries: seq<Entry>, path: Path, pending: seq<Path>, total: nat)
    returns (pending': seq<Path>, total': nat)
    requires total <= I64_MAX
    ensures pending' == pending + Descents(path, entries)
    ensures total' == Min(total + SumBytes(entries), I64_MAX)
  {
    hide Descents, SumBytes;
    pending', total' := pending, total;
    assert entries[..0] == [];
    NothingAdded(path, pending);
    for i := 0 to |entries|
      invariant total' <= I64_MAX
      invariant pending' == pending + Descents(path, entries[..i])
      invariant total' == Min(total + SumBytes(entries[..i]), I64_MAX)
    {
      var entry := entries[i];
      assert entries[..i + 1] == entries[..i] + [entry];
      ListingsJoin(path, entries[..i], [entry]);
      OneListed(path, entry);
      if Skipped(entry.name) {
        assert pending + (Descents(path, entries[..i]) + []) == pending';
        continue;
      }
      if IsDirectory(entry) {
        if !IsReparse(entry) {
          var next := if path == [] then entry.name else path + [SEPARATOR] + entry.name;
          assert pending + (Descents(path, entries[..i]) + [next]) == pending' + [next];
          pending' := pending' + [next];
        }
      } else {
        total' := Min(Min(total' + entry.endOfFile, U64_MAX), I64_MAX);
      }
    }
    assert entries[..|entries|] == entries;
  }

  lemma NothingAdded(path: Path, pending: seq<Path>)
    ensures pending + Descents(path, []) == pending && SumBytes([]) == 0
  {}

  lemma OneListed(path: Path, e: Entry)
    ensures Descents(path, [e]) == if Descends(e) then [Join(path, e.name)] else []
    ensures SumBytes([e]) == FileBytes(e)
  {}

  /** The directories one listing adds to the stack, with their trees. */
  function Pushed(path: Path, nodes: seq<Node>): seq<(Path, seq<Node>)> {
    if nodes == [] then []
    else (if Descends(nodes[0].entry) then [(Join(path, nodes[0].entry.name), nodes[0].children)] else [])
         + Pushed(path, nodes[1..])
  }

  function Paths(work: seq<(Path, seq<Node>)>): seq<Path> {
    if work == [] then [] else [work[0].0] + Paths(work[1..])
  }

  /** Everything still to be visited when `work` is the stack. */
  function Expand(work: seq<(Path, seq<Node>)>): seq<(Path, seq<Node>)> {
    if work == [] then [] else AllFolders(work[0].0, work[0].1) + Expand(work[1..])
  }

  function TotalOf(work: seq<(Path, seq<Node>)>): nat {
    if work == [] then 0 else TotalSize(work[0].1) + TotalOf(work[1..])
  }

  lemma {:induction false} PathsJoin(a: seq<(Path, seq<Node>)>, b: seq<(Path, seq<Node>)>)
    ensures Paths(a + b) == Paths(a) + Paths(b)
  {
    if a == [] {
      assert a + b == b;
    } else {
      PathsJoin(a[1..], b);
      assert (a + b)[1..] == a[1..] + b;
      Regroup([a[0].0], Paths(a[1..]), Paths(b));
    }
  }

  lemma {:induction false} ExpandJoin(a: seq<(Path, seq<Node>)>, b: seq<(Path, seq<Node>)>)
    ensures Expand(a + b) == Expand(a) + Expand(b)
  {
    hide AllFolders;
    if a == [] {
      assert a + b == b;
    } else {
      ExpandJoin(a[1..], b);
      assert (a + b)[1..] == a[1..] + b;
      Regroup(AllFolders(a[0].0, a[0].1), Expand(a[1..]), Expand(b));
    }
  }

  lemma {:induction false} TotalJoin(a: seq<(Path, seq<Node>)>, b: seq<(Path, seq<Node>)>)
    ensures TotalOf(a + b) == TotalOf(a) + TotalOf(b)
  {
    hide TotalSize;
    if a == [] {
      assert a + b == b;
    } else {
      TotalJoin(a[1..], b);
      assert (a + b)[1..] == a[1..] + b;
    }
  }

  lemma WorkJoin(a: seq<(Path, seq<Node>)>, b: seq<(Path, seq<Node>)>)
    ensures Paths(a + b) == Paths(a) + Paths(b)
    ensures Expand(a + b) == Expand(a) + Expand(b)
    ensures TotalOf(a + b) == TotalOf(a) + TotalOf(b)
  {
    hide Paths, Expand, TotalOf;
    PathsJoin(a, b);
    ExpandJoin(a, b);
    TotalJoin(a, b);
  }

  /** What a listing pushes is what remains of its tree: paths, directories and bytes. */
  lemma {:induction false} PushedIsRest(path: Path, nodes: seq<Node>)
    ensures Descents(path, Listing(nodes)) == Paths(Pushed(path, nodes))
    ensures Folders(path, nodes) == Expand(Pushed(path, nodes))
    ensures TotalSize(nodes) == SumBytes(Listing(nodes)) + TotalOf(Pushed(path, nodes))
  {
    hide Descends, FileBytes, Join;
    if nodes != [] {
      PushedIsRest(path, nodes[1..]);
      assert Listing(nodes)[1..] == Listing(nodes[1..]);
      var first := if Descends(nodes[0].entry) then [(Join(path, nodes[0].entry.name), nodes[0].children)] else [];
      WorkJoin(first, Pushed(path, nodes[1..]));
      OneWork(first);
    }
  }

  lemma OneWork(first: seq<(Path, seq<Node>)>)
    requires |first| <= 1
    ensures first != [] ==> Paths(first) == [first[0].0] && Expand(first) == AllFolders(first[0].0, first[0].1)
    ensures first != [] ==> TotalOf(first) == TotalSize(first[0].1)
    ensures first == [] ==> Paths(first) == [] && Expand(first) == [] && TotalOf(first) == 0
  {
    hide AllFolders, TotalSize;
  }

  function PageEntries(pages: seq<Bytes>): Outcome<seq<Entry>> {
    if pages == [] then Success([])
    else
      var first := Entries(pages[0]);
      if first.Failure? then first else After(first.value, PageEntries(pages[1..]))
  }

  /** Nonempty pages that together decode to one listing, however it is split. */
  predicate Serves(pages: seq<Bytes>, listing: seq<Entry>) {
    (forall i :: 0 <= i < |pages| ==> pages[i] != []) && PageEntries(pages) == Success(listing)
  }

  predicate Served(served: map<Path, seq<Bytes>>, d: (Path, seq<Node>)) {
    d.0 in served && Serves(served[d.0], Listing(d.1))
  }

  /** The server presents the tree: every directory at its path, its listing in some pages. */
  predicate ServesTree(served: map<Path, seq<Bytes>>, path: Path, nodes: seq<Node>) {
    forall d :: d in AllFolders(path, nodes) ==> Served(served, d)
  }

  datatype Event = Opened(path: Path) | Closed

  function Bracketed(visited: seq<(Path, seq<Node>)>): seq<Event> {
    if visited == [] then [] else Bracketed(visited[..|visited| - 1]) + [Opened(visited[|visited| - 1].0), Closed]
  }

  /** Success when nothing went wrong since `before`, and otherwise the first error since. */
  predicate FirstOf<T>(r: Result<T>, before: seq<ClientError>, after: seq<ClientError>) {
    if r.Ok? then after == before else before < after && after[|before|] == r.error
  }

  /** The session the walk runs on. Any exchange may fail, and a page may arrive damaged. */
  class DirectorySession {
    const served: map<Path, seq<Bytes>>
    var pages: seq<Bytes>
    ghost var events: seq<Event>
    /** What went wrong so far: an exchange that failed, or a page that does not decode. */
    ghost var faults: seq<ClientError>

    constructor (served: map<Path, seq<Bytes>>)
      ensures this.served == served && events == [] && faults == []
    {
      this.served, pages, events, faults := served, [], [], [];
    }

    method OpenDirectory(path: Path) returns (r: Result<()>)
      modifies `pages, `events, `faults
      ensures r.Ok? ==> path in served && pages == served[path] && faults == old(faults) && events == old(events) + [Opened(path)]
      ensures r.Err? ==> events == old(events) && faults == old(faults) + [r.error]
    {
      var fails: bool := *;
      if fails || path !in served {
        var e: ClientError := *;
        faults := faults + [e];
        return Err(e);
      }
      pages, events := served[path], events + [Opened(path)];
      return Ok(());
    }

    method QueryDirectory() returns (r: Result<Bytes>)
      modifies `pages, `faults
      ensures old(faults) <= faults && |faults| <= |old(faults)| + 1
      ensures faults == old(faults) ==>
                if old(pages) == [] then r == Ok([]) && pages == [] else r == Ok(old(pages)[0]) && pages == old(pages)[1..]
      ensures faults != old(faults) ==> if r.Err? then faults == old(faults) + [r.error]
                                        else Entries(r.value).Failure? && faults == old(faults) + [Wire]
    {
      if * {
        var damaged: Bytes := *;
        var e: ClientError := *;
        r := if Entries(damaged).Failure? then Ok(damaged) else Err(e);
        faults := faults + [if r.Ok? then Wire else e];
        return r;
      }
      if pages == [] {
        return Ok([]);
      }
      r, pages := Ok(pages[0]), pages[1..];
    }

    method CloseDirectory() returns (r: Result<()>)
      modifies `events, `faults
      ensures events == old(events) + [Closed] && faults == old(faults) + (if r.Err? then [r.error] else [])
    {
      events := events + [Closed];
      if * {
        var e: ClientError := *;
        faults := faults + [e];
        return Err(e);
      }
      return Ok(());
    }

    /** Reads the open directory to its end, page by page. */
    method ListDirectory(path: Path, pending: seq<Path>, total: nat, ghost listing: seq<Entry>)
      returns (r: Result<()>, pending': seq<Path>, total': nat)
      requires total <= I64_MAX && Serves(pages, listing)
      modifies `pages, `faults
      ensures faults == old(faults) + (if r.Err? then [r.error] else [])
      ensures r.Ok? ==> pending' == pending + Descents(path, listing) && total' == Min(total + SumBytes(listing), I64_MAX)
    {
      hide Entries, PageEntries, Descents, SumBytes;
      pending', total' := pending, total;
      ghost var rest := listing;
      while true
        invariant total' <= I64_MAX && faults == old(faults) && Serves(pages, rest)
        invariant pending' + Descents(path, rest) == pending + Descents(path, listing)
        invariant Min(total' + SumBytes(rest), I64_MAX) == Min(total + SumBytes(listing), I64_MAX)
        decreases |pages|
      {
        ghost var before := pages;
        var bytes := QueryDirectory();
        if bytes.Err? {
          return Err(bytes.error), pending', total';
        }
        if bytes.value == [] {
          EmptyDecodes();
          NothingLeft(before, rest, path, pending');
          return Ok(()), pending', total';
        }
        var entries := DecodePage(bytes.value);
        match entries {
          case Failure(_) =>
            FirstDecodes(before, rest);
            return Err(Wire), pending', total';
          case Success(es) =>
            FirstDecodes(before, rest);
            rest := PageEntries(pages).value;
            ListingsJoin(path, es, rest);
            pending', total' := AccumulateEntries(es, path, pending', total');
        }
      }
    }

    /** One turn of the walk: a directory is opened, listed to its end, and closed whatever the
        listing gave. */
    method VisitDirectory(path: Path, pending: seq<Path>, total: nat, ghost listing: seq<Entry>)
      returns (r: Result<()>, pending': seq<Path>, total': nat)
      requires total <= I64_MAX && path in served && Serves(served[path], listing)
      modifies `pages, `events, `faults
      ensures FirstOf(r, old(faults), faults)
      ensures events == old(events) || events == old(events) + [Opened(path)] + [Closed]
      ensures r.Ok? ==> events == old(events) + [Opened(path)] + [Closed]
      ensures r.Ok? ==> pending' == pending + Descents(path, listing) && total' == Min(total + SumBytes(listing), I64_MAX)
    {
      hide Serves, Descents, SumBytes;
      pending', total' := pending, total;
      var directory := OpenDirectory(path);
      if directory.Err? {
        return Err(directory.error), pending', total';
      }
      var result: Result<()>;
      result, pending', total' := ListDirectory(path, pending, total, listing);
      var closed := CloseDirectory();
      if result.Err? {
        return Err(result.error), pending', total';
      }
      if closed.Err? {
        return Err(closed.error), pending', total';
      }
      return Ok(()), pending', total';
    }

    /** `directory_size` over any tree the server presents: however listings are split into pages,
        the walk ends, opens every directory of the tree once and closes each before the next, and
        returns the recursive sum of file sizes, capped at the largest signed 64-bit value. It fails
        only when an exchange fails or a page does not decode, and with the first such error. */
    method DirectorySize(rootPath: Path, ghost nodes: seq<Node>) returns (r: Result<nat>, ghost visited: seq<(Path, seq<Node>)>)
      requires ServesTree(served, rootPath, nodes)
      modifies `pages, `events, `faults
      ensures r.Ok? ==> r.value == Min(TotalSize(nodes), I64_MAX)
      ensures r.Ok? ==> multiset(visited) == multiset(AllFolders(rootPath, nodes))
      ensures r.Ok? && DistinctNames(nodes) ==> Apart(visited)
      ensures FirstOf(r, old(faults), faults)
      ensures events == old(events) + Bracketed(visited)
    {
      hide AllFolders, TotalSize, Expand, Bracketed, DistinctNames, Serves, Apart, Descents, SumBytes, Pushed, Listing, Progress;
      var pending := [rootPath];
      var total: nat := 0;
      ghost var work := [(rootPath, nodes)];
      visited := [];
      Start(rootPath, nodes);
      while pending != []
        invariant Progress(pending, total, work, visited, rootPath, nodes)
        invariant faults == old(faults) && events == old(events) + Bracketed(visited)
        decreases |Expand(work)|
      {
        ghost var before, sum := pending, total;
        var path := pending[|pending| - 1];
        pending := pending[..|pending| - 1];
        Next(before, total, work, visited, rootPath, nodes);
        ghost var d := work[|work| - 1];
        assert Served(served, d);
        BracketOne(old(events), visited, d);
        var result: Result<()>;
        result, pending, total := VisitDirectory(path, pending, total, Listing(d.1));
        if events != old(events) + Bracketed(visited) {
          visited := visited + [d];
        }
        if result.Err? {
          return Err(result.error), visited;
        }
        ProgressKept(before, sum, work, visited[..|visited| - 1], rootPath, nodes, pending, total);
        work := work[..|work| - 1] + Pushed(d.0, d.1);
      }
      Finish(total, work, visited, rootPath, nodes);
      return Ok(total), visited;
    }
  }

  /** What every turn keeps: the stack is the work left; bytes counted and directories visited,
      together with what that work still holds, are those of the whole tree. */
  ghost predicate Progress(pending: seq<Path>, total: nat, work: seq<(Path, seq<Node>)>, visited: seq<(Path, seq<Node>)>,
                           path: Path, nodes: seq<Node>)
  {
    && pending == Paths(work) && total <= I64_MAX
    && Min(total + TotalOf(work), I64_MAX) == Min(TotalSize(nodes), I64_MAX)
    && multiset(visited + Expand(work)) == multiset(AllFolders(path, nodes))
  }

  lemma Next(pending: seq<Path>, total: nat, work: seq<(Path, seq<Node>)>, visited: seq<(Path, seq<Node>)>, path: Path, nodes: seq<Node>)
    requires Progress(pending, total, work, visited, path, nodes) && pending != []
    ensures work != [] && total <= I64_MAX && work[|work| - 1].0 == pending[|pending| - 1]
    ensures work[|work| - 1] in AllFolders(path, nodes)
  {
    hide Expand, TotalOf, Paths, AllFolders, TotalSize;
    NoPaths(work);
    Pop(work);
    InTree(visited, Expand(work[..|work| - 1]), work[|work| - 1], AllFolders(path, nodes));
  }

  lemma ProgressKept(before: seq<Path>, sum: nat, work: seq<(Path, seq<Node>)>, visited: seq<(Path, seq<Node>)>,
                     path: Path, nodes: seq<Node>, pending: seq<Path>, total: nat)
    requires Progress(before, sum, work, visited, path, nodes) && before != [] && work != []
    requires var d := work[|work| - 1];
             && pending == before[..|before| - 1] + Descents(d.0, Listing(d.1))
             && total == Min(sum + SumBytes(Listing(d.1)), I64_MAX)
    ensures var d := work[|work| - 1];
            var work' := work[..|work| - 1] + Pushed(d.0, d.1);
            Progress(pending, total, work', visited + [d], path, nodes) && |Expand(work')| < |Expand(work)|
  {
    hide Expand, TotalOf, Paths, AllFolders, TotalSize, Descents, SumBytes, Listing, Pushed;
    var d, left := work[|work| - 1], work[..|work| - 1];
    Pop(work);
    PushedIsRest(d.0, d.1);
    WorkJoin(left, Pushed(d.0, d.1));
    VisitOne(visited, d, left);
    AllLength(d);
  }

  lemma AllLength(d: (Path, seq<Node>))
    ensures |AllFolders(d.0, d.1)| == |Folders(d.0, d.1)| + 1
  {
    hide Folders;
  }

  lemma EmptyDecodes()
    ensures Entries([]) == Success([])
  {}

  lemma FirstDecodes(pages: seq<Bytes>, listing: seq<Entry>)
    requires Serves(pages, listing)
    ensures pages != [] ==>
              && Entries(pages[0]).Success? && PageEntries(pages[1..]).Success?
              && Serves(pages[1..], PageEntries(pages[1..]).value)
              && listing == Entries(pages[0]).value + PageEntries(pages[1..]).value
  {
    hide Entries;
  }

  lemma NothingLeft(pages: seq<Bytes>, listing: seq<Entry>, path: Path, pending: seq<Path>)
    requires Serves(pages, listing) && pages == []
    ensures pending + Descents(path, listing) == pending && SumBytes(listing) == 0
  {}

  lemma Start(path: Path, nodes: seq<Node>)
    ensures Progress([path], 0, [(path, nodes)], [], path, nodes)
    ensures Bracketed([]) == []
  {
    hide AllFolders, TotalSize;
    OneWork([(path, nodes)]);
    assert [] + AllFolders(path, nodes) == AllFolders(path, nodes);
  }

  lemma NoPaths(work: seq<(Path, seq<Node>)>)
    ensures work == [] <==> Paths(work) == []
  {}

  lemma LastSplit<T>(s: seq<T>)
    requires s != []
    ensures s == s[..|s| - 1] + [s[|s| - 1]]
  {}

  lemma Pop(work: seq<(Path, seq<Node>)>)
    requires work != []
    ensures Paths(work) == Paths(work[..|work| - 1]) + [work[|work| - 1].0]
    ensures Expand(work) == Expand(work[..|work| - 1]) + AllFolders(work[|work| - 1].0, work[|work| - 1].1)
    ensures TotalOf(work) == TotalOf(work[..|work| - 1]) + TotalSize(work[|work| - 1].1)
  {
    hide Paths, Expand, TotalOf, AllFolders, TotalSize;
    LastSplit(work);
    WorkJoin(work[..|work| - 1], [work[|work| - 1]]);
    OneWork([work[|work| - 1]]);
  }

  lemma InTree(visited: seq<(Path, seq<Node>)>, rest: seq<(Path, seq<Node>)>, d: (Path, seq<Node>), all: seq<(Path, seq<Node>)>)
    requires multiset(visited + (rest + AllFolders(d.0, d.1))) == multiset(all)
    ensures d in all
  {
    hide Folders;
    var now := visited + (rest + AllFolders(d.0, d.1));
    assert now[|visited| + |rest|] == d;
    assert d in multiset(now);
  }

  lemma VisitOne(visited: seq<(Path, seq<Node>)>, d: (Path, seq<Node>), work: seq<(Path, seq<Node>)>)
    ensures multiset((visited + [d]) + (Expand(work) + Folders(d.0, d.1))) == multiset(visited + (Expand(work) + AllFolders(d.0, d.1)))
  {
    hide Expand, Folders;
  }

  lemma BracketOne(events: seq<Event>, visited: seq<(Path, seq<Node>)>, d: (Path, seq<Node>))
    ensures events + Bracketed(visited) + [Opened(d.0)] + [Closed] == events + Bracketed(visited + [d])
  {
    assert (visited + [d])[..|visited|] == visited;
  }

  lemma Finish(total: nat, work: seq<(Path, seq<Node>)>, visited: seq<(Path, seq<Node>)>, path: Path, nodes: seq<Node>)
    requires Progress([], total, work, visited, path, nodes)
    ensures total == Min(TotalSize(nodes), I64_MAX) && multiset(visited) == multiset(AllFolders(path, nodes))
    ensures DistinctNames(nodes) ==> Apart(visited)
  {
    hide AllFolders, Apart, DistinctNames, TotalSize;
    NoPaths(work);
    assert visited + [] == visited;
    if DistinctNames(nodes) {
      AllApart(path, nodes);
      SameApart(AllFolders(path, nodes), visited);
    }
  }

  lemma SameApart(a: seq<(Path, seq<Node>)>, b: seq<(Path, seq<Node>)>)
    requires Apart(a) && multiset(a) == multiset(b)
    ensures Apart(b)
  {
    forall i, j | 0 <= i < j < |b| ensures b[i].0 != b[j].0 {
      if b[i] == b[j] {
        AtMostOnce(a, b[i]);
        TwiceCounts(b, i, j);
      } else {
        assert b[i] in multiset(a) && b[j] in multiset(a);
      }
    }
  }

  lemma {:induction false} AtMostOnce(a: seq<(Path, seq<Node>)>, d: (Path, seq<Node>))
    requires Apart(a)
    ensures multiset(a)[d] <= 1
  {
    if a != [] {
      AtMostOnce(a[1..], d);
      assert a == [a[0]] + a[1..];
      if d == a[0] {
        assert d !in a[1..];
        assert multiset(a[1..])[d] == 0;
      }
    }
  }

  lemma TwiceCounts(b: seq<(Path, seq<Node>)>, i: nat, j: nat)
    requires i < j < |b| && b[i] == b[j]
    ensures multiset(b)[b[i]] >= 2
  {
    assert b == b[..i] + [b[i]] + b[i + 1..j] + [b[j]] + b[j + 1..];
  }
}
