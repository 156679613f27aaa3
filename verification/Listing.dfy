/**
  Listing a remote directory tree page by page.

  The server is a finite tree: each directory gives its entries on one page or more.
 */
module Listing {
  import opened Basics

  datatype Directory = Directory(name: string, pages: seq<Page>)

  datatype Page = Page(files: seq<string>, dirs: seq<Directory>)

  /** The components of a path. */
  type Path = seq<string>

  datatype Entry = File(path: Path) | Visited(path: Path)

  // ---------------------------------------------------------------- everything in a tree

  function FileEntries(files: seq<string>, path: Path): seq<Entry> {
    seq(|files|, i requires 0 <= i < |files| => File(path + [files[i]]))
  }

  /** A directory, its files and everything below it, each as often as the tree holds it. */
  ghost function Entries(d: Directory, path: Path): multiset<Entry>
    decreases d
  {
    multiset{Visited(path)} + OnPages(d.pages, path)
  }

  ghost function OnPages(pages: seq<Page>, path: Path): multiset<Entry>
    decreases pages
  {
    if pages == [] then multiset{} else OnPage(pages[0], path) + OnPages(pages[1..], path)
  }

  ghost function OnPage(page: Page, path: Path): multiset<Entry>
    decreases page
  {
    multiset(FileEntries(page.files, path)) + Below(page.dirs, path)
  }

  ghost function Below(dirs: seq<Directory>, path: Path): multiset<Entry>
    decreases dirs
  {
    if dirs == [] then multiset{}
    else
      var last := dirs[|dirs| - 1];
      Below(dirs[..|dirs| - 1], path) + Entries(last, path + [last.name])
  }

  // ---------------------------------------------------------------- the worklist

  /** A directory still to be listed. */
  datatype Todo = Todo(directory: Directory, path: Path)

  ghost function Pending(todo: seq<Todo>): multiset<Entry> {
    if todo == [] then multiset{}
    else Pending(todo[..|todo| - 1]) + Entries(todo[|todo| - 1].directory, todo[|todo| - 1].path)
  }

  function Todos(dirs: seq<Directory>, path: Path): seq<Todo> {
    seq(|dirs|, i requires 0 <= i < |dirs| => Todo(dirs[i], path + [dirs[i].name]))
  }

  lemma {:induction false} PendingSnoc(todo: seq<Todo>, t: Todo)
    ensures Pending(todo + [t]) == Pending(todo) + Entries(t.directory, t.path)
  {
    assert (todo + [t])[..|todo|] == todo;
  }

  lemma {:induction false} PendingAppend(todo: seq<Todo>, dirs: seq<Directory>, path: Path)
    ensures Pending(todo + Todos(dirs, path)) == Pending(todo) + Below(dirs, path)
  {
    hide Entries, Pending;
    if dirs == [] {
      assert todo + Todos(dirs, path) == todo;
    } else {
      var n := |dirs| - 1;
      PendingAppend(todo, dirs[..n], path);
      var t := Todo(dirs[n], path + [dirs[n].name]);
      assert todo + Todos(dirs, path) == (todo + Todos(dirs[..n], path)) + [t];
      PendingSnoc(todo + Todos(dirs[..n], path), t);
    }
  }

  /** How many requests are left to make. */
  ghost function Requests(d: Directory): nat
    decreases d
  {
    1 + PageRequests(d.pages)
  }

  ghost function PageRequests(pages: seq<Page>): nat
    decreases pages
  {
    if pages == [] then 0 else 1 + DirRequests(pages[0].dirs) + PageRequests(pages[1..])
  }

  ghost function DirRequests(dirs: seq<Directory>): nat
    decreases dirs
  {
    if dirs == [] then 0 else DirRequests(dirs[..|dirs| - 1]) + Requests(dirs[|dirs| - 1])
  }

  ghost function TodoRequests(todo: seq<Todo>): nat {
    if todo == [] then 0 else TodoRequests(todo[..|todo| - 1]) + Requests(todo[|todo| - 1].directory)
  }

  lemma {:induction false} TodoRequestsSnoc(todo: seq<Todo>, t: Todo)
    ensures TodoRequests(todo + [t]) == TodoRequests(todo) + Requests(t.directory)
  {
    assert (todo + [t])[..|todo|] == todo;
  }

  lemma {:induction false} TodoRequestsAppend(todo: seq<Todo>, dirs: seq<Directory>, path: Path)
    ensures TodoRequests(todo + Todos(dirs, path)) == TodoRequests(todo) + DirRequests(dirs)
  {
    hide Requests, TodoRequests;
    if dirs == [] {
      assert todo + Todos(dirs, path) == todo;
    } else {
      var n := |dirs| - 1;
      TodoRequestsAppend(todo, dirs[..n], path);
      var t := Todo(dirs[n], path + [dirs[n].name]);
      assert todo + Todos(dirs, path) == (todo + Todos(dirs[..n], path)) + [t];
      TodoRequestsSnoc(todo + Todos(dirs[..n], path), t);
    }
  }

  lemma EntriesAre(d: Directory, path: Path)
    ensures Entries(d, path) == multiset{Visited(path)} + OnPages(d.pages, path)
  {
  }

  lemma OnPageIs(page: Page, path: Path)
    ensures OnPage(page, path) == multiset(FileEntries(page.files, path)) + Below(page.dirs, path)
  {
  }

  lemma RequestsAre(d: Directory)
    ensures Requests(d) == 1 + PageRequests(d.pages)
  {
  }

  lemma PendingLast(todo: seq<Todo>)
    requires todo != []
    ensures var n := |todo| - 1;
      && Pending(todo) == Pending(todo[..n]) + Entries(todo[n].directory, todo[n].path)
      && TodoRequests(todo) == TodoRequests(todo[..n]) + Requests(todo[n].directory)
  {
  }

  lemma PagesFirst(pages: seq<Page>, path: Path)
    requires pages != []
    ensures OnPages(pages, path) == OnPage(pages[0], path) + OnPages(pages[1..], path)
    ensures PageRequests(pages) == 1 + DirRequests(pages[0].dirs) + PageRequests(pages[1..])
  {
  }

  lemma NothingLeft(path: Path)
    ensures OnPages([], path) == multiset{} && Pending([]) == multiset{} && PageRequests([]) == 0
  {
  }

  /** The listing loop: every directory is visited and every file found, as often as the tree holds it. */
  method ListAll(start: Directory, path: Path) returns (found: seq<Entry>)
    ensures multiset(found) == Entries(start, path)
  {
    hide *;
    found := [];
    var todo := [Todo(start, path)];
    // The directory being listed, and its pages still to be asked for.
    var current: Path, pages: seq<Page> := path, [];
    PendingSnoc([], Todo(start, path));
    NothingLeft(path);
    assert [] + [Todo(start, path)] == todo;
    while true
      invariant multiset(found) + OnPages(pages, current) + Pending(todo) == Entries(start, path)
      decreases TodoRequests(todo) + PageRequests(pages)
    {
      NothingLeft(current);
      if pages == [] && todo != [] {
        var next := todo[|todo| - 1];
        PendingLast(todo);
        EntriesAre(next.directory, next.path);
        RequestsAre(next.directory);
        todo := todo[..|todo| - 1];
        current, pages := next.path, next.directory.pages;
        found := found + [Visited(current)];
      } else if pages == [] {
        break;
      }
      if pages != [] {
        var page := pages[0];
        PagesFirst(pages, current);
        OnPageIs(page, current);
        PendingAppend(todo, page.dirs, current);
        TodoRequestsAppend(todo, page.dirs, current);
        found := found + FileEntries(page.files, current);
        todo := todo + Todos(page.dirs, current);
        pages := pages[1..];
      }
    }
  }

  // ---------------------------------------------------------------- starting below the root

  function AllDirs(pages: seq<Page>): seq<Directory> {
    if pages == [] then [] else pages[0].dirs + AllDirs(pages[1..])
  }

  predicate Distinct(dirs: seq<Directory>) {
    forall i, j :: 0 <= i < j < |dirs| ==> dirs[i].name != dirs[j].name
  }

  function Named(dirs: seq<Directory>, name: string): Option<Directory> {
    if dirs == [] then None
    else if dirs[|dirs| - 1].name == name then Some(dirs[|dirs| - 1])
    else Named(dirs[..|dirs| - 1], name)
  }

  /** The directory that a path leads to. */
  function Lookup(d: Directory, cs: Path): Option<Directory>
    decreases |cs|
  {
    if cs == [] then Some(d)
    else
      var child := Named(AllDirs(d.pages), cs[0]);
      if child.None? then None else Lookup(child.value, cs[1..])
  }

  /** No two directories on the way to a path have the same name and parent. */
  predicate Unambiguous(d: Directory, cs: Path)
    decreases |cs|
  {
    cs == [] || (Distinct(AllDirs(d.pages)) &&
      var child := Named(AllDirs(d.pages), cs[0]); child.Some? ==> Unambiguous(child.value, cs[1..]))
  }

  predicate Under(path: Path, p: Path) { |path| < |p| && p[..|path|] == path }

  /** Files below a directory have its path before theirs. */
  lemma {:induction false} EntriesUnder(d: Directory, path: Path, p: Path)
    ensures File(p) in Entries(d, path) ==> Under(path, p)
    decreases d
  {
    PagesUnder(d.pages, path, p);
  }

  lemma {:induction false} FilesUnder(files: seq<string>, path: Path, p: Path)
    ensures File(p) in multiset(FileEntries(files, path)) ==> Under(path, p) && |p| == |path| + 1
  {
  }

  lemma {:induction false} PagesUnder(pages: seq<Page>, path: Path, p: Path)
    ensures File(p) in OnPages(pages, path) ==> Under(path, p)
    decreases pages
  {
    hide Under;
    if pages != [] {
      FilesUnder(pages[0].files, path, p);
      BelowUnder(pages[0].dirs, path, p);
      PagesUnder(pages[1..], path, p);
      assert OnPages(pages, path)
          == multiset(FileEntries(pages[0].files, path)) + Below(pages[0].dirs, path) + OnPages(pages[1..], path);
    }
  }

  lemma {:induction false} BelowUnder(dirs: seq<Directory>, path: Path, p: Path)
    ensures File(p) in Below(dirs, path) ==> Under(path, p)
    decreases dirs
  {
    if dirs != [] {
      var last := dirs[|dirs| - 1];
      BelowUnder(dirs[..|dirs| - 1], path, p);
      EntriesUnder(last, path + [last.name], p);
      if Under(path + [last.name], p) { assert p[..|path|] == p[..|path| + 1][..|path|] == path; }
    }
  }

  lemma NotUnder(path: Path, name: string, p: Path)
    requires |path| < |p| && p[|path|] != name
    ensures !Under(path + [name], p)
  {
    if |path| + 1 < |p| { assert p[..|path| + 1][|path|] == p[|path|]; }
  }

  lemma {:induction false} NamedNone(dirs: seq<Directory>, name: string)
    requires forall i :: 0 <= i < |dirs| ==> dirs[i].name != name
    ensures Named(dirs, name).None?
  {
    if dirs != [] { NamedNone(dirs[..|dirs| - 1], name); }
  }

  /** Of several directories with different names, only the one on the way holds a file. */
  lemma {:induction false} BelowNamed(dirs: seq<Directory>, path: Path, p: Path)
    requires Distinct(dirs) && Under(path, p)
    ensures var child := Named(dirs, p[|path|]);
      Below(dirs, path)[File(p)] == if child.Some? then Entries(child.value, path + [p[|path|]])[File(p)] else 0
  {
    hide Entries;
    if dirs != [] {
      var n := |dirs| - 1;
      var last := dirs[n];
      BelowNamed(dirs[..n], path, p);
      EntriesUnder(last, path + [last.name], p);
      if last.name == p[|path|] {
        assert forall i :: 0 <= i < n ==> dirs[i].name != last.name;
        NamedNone(dirs[..n], last.name);
      } else {
        NotUnder(path, last.name, p);
      }
    }
  }

  lemma {:induction false} BelowConcat(a: seq<Directory>, b: seq<Directory>, path: Path)
    ensures Below(a + b, path) == Below(a, path) + Below(b, path)
    decreases |b|
  {
    hide Entries;
    if b == [] {
      assert a + b == a;
    } else {
      assert (a + b)[..|a + b| - 1] == a + b[..|b| - 1];
      BelowConcat(a, b[..|b| - 1], path);
    }
  }

  lemma {:induction false} PagesAreDirs(pages: seq<Page>, path: Path, p: Path)
    requires |p| > |path| + 1
    ensures OnPages(pages, path)[File(p)] == Below(AllDirs(pages), path)[File(p)]
    decreases |pages|
  {
    hide Under, FileEntries, Entries;
    if pages != [] {
      FilesUnder(pages[0].files, path, p);
      PagesAreDirs(pages[1..], path, p);
      BelowConcat(pages[0].dirs, AllDirs(pages[1..]), path);
    }
  }

  /** A file below the path `cs` is found as often from there as from above. */
  lemma {:induction false} LookupKeepsFiles(d: Directory, path: Path, cs: Path, p: Path)
    requires Unambiguous(d, cs) && |p| > |path| + |cs| && p[..|path| + |cs|] == path + cs
    ensures var start := Lookup(d, cs);
      Entries(d, path)[File(p)] == if start.Some? then Entries(start.value, path + cs)[File(p)] else 0
    decreases |cs|
  {
    if cs == [] {
      assert path + cs == path;
    } else {
      hide Entries, Below, Named;
      var q := path + [cs[0]];
      assert q + cs[1..] == path + cs;
      assert p[..|path|] == p[..|path| + |cs|][..|path|] == path;
      assert p[|path|] == p[..|path| + |cs|][|path|] == cs[0];
      EntriesAre(d, path);
      PagesAreDirs(d.pages, path, p);
      BelowNamed(AllDirs(d.pages), path, p);
      var child := Named(AllDirs(d.pages), cs[0]);
      if child.Some? { LookupKeepsFiles(child.value, q, cs[1..], p); }
    }
  }
}
