/**
 Walking the PXWeb v1 navigation API (pxweb_v1/catalog.py): the breadth-first crawl
 `_crawl_navigation` and the cached resolver `_resolve_api_category_paths`.
 The API is a function from folder paths to replies.
 */
module Navigation {
  import opened Common

  const MAX_NAVIGATION_FOLDERS := 10_000

  type Path = seq<string>

  datatype EntryKind = Folder | TableEntry | OtherEntry

  datatype Entry = Entry(kind: EntryKind, id: Option<string>, text: Option<string>, updated: Option<string>)

  datatype Reply = Entries(entries: seq<Entry>) | HttpError(status: Option<int>) | Malformed

  datatype Category = Category(id: string, name: string)

  datatype Table = Table(
    id: string, path: Path, title: string, categories: seq<Category>,
    apiUrl: string, webUrl: Option<string>, updated: Option<string>)

  /**
   The text helpers: `_clean_text`, `_strip_id_prefix`, `casefold`, `_normalize_id`, `strip`, and the
   two url builders `_table_api_url` and `_table_web_url`.
   */
  datatype Names = Names(
    clean: string -> string,
    stripPrefix: (string, string) -> string,
    fold: string -> string,
    normalize: string -> string,
    strip: string -> string,
    apiUrl: (Path, string) -> string,
    webUrl: (Path, string) -> Option<string>)

  datatype Failure = Unanswered(path: Path) | TooManyFolders | NoTables

  // ---- What the crawl should find -----------------------------------------------------------

  predicate Named(names: Names, e: Entry) { e.id.Some? && names.strip(e.id.value) != "" }

  predicate IsFolder(names: Names, e: Entry) { Named(names, e) && e.kind.Folder? }

  /** The folder ids a reply lists. */
  function FolderIds(names: Names, entries: seq<Entry>): set<string> {
    set e | e in entries && IsFolder(names, e) :: e.id.value
  }

  function Children(names: Names, path: Path, entries: seq<Entry>): set<Path> {
    set id | id in FolderIds(names, entries) :: path + [id]
  }

  /** A folder is reachable through folders that answer and list the next one. */
  predicate Reachable(names: Names, api: Path -> Reply, path: Path)
    decreases |path|
  {
    path == [] ||
    (var parent, id := path[..|path| - 1], path[|path| - 1];
     Reachable(names, api, parent) && api(parent).Entries? && id in FolderIds(names, api(parent).entries))
  }

  function EntryName(names: Names, e: Entry): string
    requires e.id.Some?
  {
    if e.text.Some? then names.clean(e.text.value) else e.id.value
  }

  function CategoryFor(names: Names, e: Entry): Category
    requires e.id.Some?
  {
    var stripped := names.stripPrefix(EntryName(names, e), e.id.value);
    Category(e.id.value, if stripped != "" then stripped else e.id.value)
  }

  /** The category of a folder id: the first listed entry with that id names it. */
  function FirstCategory(names: Names, entries: seq<Entry>, id: string): Category
    requires id in FolderIds(names, entries)
  {
    var front, last := entries[..|entries| - 1], entries[|entries| - 1];
    if id in FolderIds(names, front) then FirstCategory(names, front, id)
    else
      assert forall e :: e in entries ==> e in front || e == last;
      CategoryFor(names, last)
  }

  /** One category per component of a reachable path. */
  function CategoriesOf(names: Names, api: Path -> Reply, path: Path): (cs: seq<Category>)
    requires Reachable(names, api, path)
    ensures |cs| == |path|
    decreases |path|
  {
    if path == [] then []
    else
      var parent := path[..|path| - 1];
      CategoriesOf(names, api, parent) + [FirstCategory(names, api(parent).entries, path[|path| - 1])]
  }

  function TableFor(names: Names, path: Path, categories: seq<Category>, e: Entry): Table
    requires e.id.Some?
  {
    var name := EntryName(names, e);
    Table(e.id.value, path, if name != "" then name else e.id.value, categories,
          names.apiUrl(path, e.id.value), names.webUrl(path, e.id.value),
          if e.updated.Some? then Some(names.strip(e.updated.value)) else None)
  }

  /** The table ids of a reply, case-folded. */
  function TableKeys(names: Names, entries: seq<Entry>): set<string> {
    set e | e in entries && Named(names, e) && e.kind.TableEntry? :: names.fold(e.id.value)
  }

  /** The tables of one folder: the first entry for each case-folded id, in listing order. */
  function FolderTables(names: Names, path: Path, categories: seq<Category>, entries: seq<Entry>): seq<Table> {
    if entries == [] then []
    else
      var front, last := entries[..|entries| - 1], entries[|entries| - 1];
      FolderTables(names, path, categories, front)
      + (if Named(names, last) && last.kind.TableEntry? && names.fold(last.id.value) !in TableKeys(names, front)
         then [TableFor(names, path, categories, last)] else [])
  }

  function TablesAt(names: Names, api: Path -> Reply, path: Path): seq<Table>
    requires Reachable(names, api, path)
  {
    match api(path)
    case Entries(entries) => FolderTables(names, path, CategoriesOf(names, api, path), entries)
    case _ => []
  }

  /** The tables of the folders in the order in which they were requested. */
  function TablesOf(names: Names, api: Path -> Reply, order: seq<Path>): seq<Table>
    requires forall i :: 0 <= i < |order| ==> Reachable(names, api, order[i])
  {
    if order == [] then []
    else TablesOf(names, api, order[..|order| - 1]) + TablesAt(names, api, order[|order| - 1])
  }

  /** A reply that lets the crawl go on: entries, or a missing branch below the root. */
  predicate Acceptable(path: Path, reply: Reply) {
    reply.Entries? || (path != [] && (reply == HttpError(Some(400)) || reply == HttpError(Some(404))))
  }

  // ---- The final order --------------------------------------------------------------------------

  /** Comparison of strings by code point. */
  predicate AtMost(a: string, b: string) {
    a == "" || (b != "" && (a[0] < b[0] || (a[0] == b[0] && AtMost(a[1..], b[1..]))))
  }

  lemma {:induction false} AtMostTotal(a: string, b: string)
    ensures AtMost(a, b) || AtMost(b, a)
    ensures AtMost(a, b) && AtMost(b, a) ==> a == b
  {
    if a != "" && b != "" {
      AtMostTotal(a[1..], b[1..]);
      assert a == [a[0]] + a[1..] && b == [b[0]] + b[1..];
    }
  }

  lemma {:induction false} AtMostTransitive(a: string, b: string, c: string)
    requires AtMost(a, b) && AtMost(b, c)
    ensures AtMost(a, c)
  {
    if a != "" {
      if a[0] == b[0] == c[0] {
        AtMostTransitive(a[1..], b[1..], c[1..]);
      }
    }
  }

  /** `_path_string` */
  function PathString(path: Path): string {
    if path == [] then "/"
    else if |path| == 1 then "/" + path[0]
    else PathString(path[..|path| - 1]) + "/" + path[|path| - 1]
  }

  /** The sort key: the folded id, then the folded path. */
  predicate InOrder(names: Names, s: Table, t: Table) {
    var a, b := names.fold(s.id), names.fold(t.id);
    if a == b then AtMost(names.fold(PathString(s.path)), names.fold(PathString(t.path))) else AtMost(a, b)
  }

  lemma InOrderTotal(names: Names, s: Table, t: Table)
    ensures InOrder(names, s, t) || InOrder(names, t, s)
  {
    AtMostTotal(names.fold(s.id), names.fold(t.id));
    AtMostTotal(names.fold(PathString(s.path)), names.fold(PathString(t.path)));
  }

  lemma InOrderTransitive(names: Names, s: Table, t: Table, u: Table)
    requires InOrder(names, s, t) && InOrder(names, t, u)
    ensures InOrder(names, s, u)
  {
    var a, b, c := names.fold(s.id), names.fold(t.id), names.fold(u.id);
    if a == b == c {
      AtMostTransitive(names.fold(PathString(s.path)), names.fold(PathString(t.path)), names.fold(PathString(u.path)));
    } else if a != b && b != c {
      AtMostTransitive(a, b, c);
      AtMostTotal(a, b);
    }
  }

  ghost predicate Sorted(names: Names, tables: seq<Table>) {
    forall i, j :: 0 <= i < j < |tables| ==> InOrder(names, tables[i], tables[j])
  }

  /** Puts a table behind all those that may precede it. */
  function Insert(names: Names, tables: seq<Table>, t: Table): seq<Table> {
    if tables == [] || InOrder(names, tables[|tables| - 1], t) then tables + [t]
    else Insert(names, tables[..|tables| - 1], t) + [tables[|tables| - 1]]
  }

  /** `sorted(output, key=...)`, which is stable. */
  function SortTables(names: Names, tables: seq<Table>): seq<Table> {
    if tables == [] then [] else Insert(names, SortTables(names, tables[..|tables| - 1]), tables[|tables| - 1])
  }

  lemma {:induction false} InsertSorts(names: Names, tables: seq<Table>, t: Table)
    requires Sorted(names, tables)
    ensures Sorted(names, Insert(names, tables, t))
    ensures multiset(Insert(names, tables, t)) == multiset(tables) + multiset{t}
  {
    hide InOrder;
    if tables != [] {
      var front, last := tables[..|tables| - 1], tables[|tables| - 1];
      assert tables == front + [last];
      InOrderTotal(names, last, t);
      if InOrder(names, last, t) {
        forall i | 0 <= i < |tables| ensures InOrder(names, tables[i], t) {
          if i < |front| {
            InOrderTransitive(names, tables[i], last, t);
          }
        }
      } else {
        InsertSorts(names, front, t);
        var placed := Insert(names, front, t);
        forall i | 0 <= i < |placed| ensures InOrder(names, placed[i], last) {
          assert placed[i] in multiset(placed);
          if placed[i] != t {
            assert placed[i] in multiset(front);
            var k :| 0 <= k < |front| && front[k] == placed[i];
            assert tables[k] == placed[i];
          }
        }
      }
    }
  }

  /** The sorted list has the same tables, in the order of the key. */
  lemma {:induction false} SortTablesSorts(names: Names, tables: seq<Table>)
    ensures Sorted(names, SortTables(names, tables))
    ensures multiset(SortTables(names, tables)) == multiset(tables)
  {
    if tables != [] {
      var front, last := tables[..|tables| - 1], tables[|tables| - 1];
      SortTablesSorts(names, front);
      InsertSorts(names, SortTables(names, front), last);
      assert tables == front + [last];
    }
  }

  // ---- The loop over one folder's entries ------------------------------------------------------

  type Pending = seq<(Path, seq<Category>)>

  /** The folders that join the queue: first occurrences of ids not seen before. */
  function NewFolders(names: Names, path: Path, categories: seq<Category>, entries: seq<Entry>,
                      seen: set<Path>): Pending {
    if entries == [] then []
    else
      var front, last := entries[..|entries| - 1], entries[|entries| - 1];
      NewFolders(names, path, categories, front, seen)
      + (if IsFolder(names, last) && path + [last.id.value] !in seen + Children(names, path, front)
         then [(path + [last.id.value], categories + [CategoryFor(names, last)])] else [])
  }

  lemma EntriesGrow(names: Names, path: Path, entries: seq<Entry>, i: nat)
    requires i < |entries|
    ensures var e := entries[i];
      && FolderIds(names, entries[..i + 1])
          == FolderIds(names, entries[..i]) + (if IsFolder(names, e) then {e.id.value} else {})
      && Children(names, path, entries[..i + 1])
         == Children(names, path, entries[..i]) + (if IsFolder(names, e) then {path + [e.id.value]} else {})
      && TableKeys(names, entries[..i + 1])
         == TableKeys(names, entries[..i])
            + (if Named(names, e) && e.kind.TableEntry? then {names.fold(e.id.value)} else {})
  {
    assert forall x :: x in entries[..i + 1] <==> x in entries[..i] || x == entries[i];
    assert entries[..i + 1][..i] == entries[..i];
  }

  lemma LoopGrows(names: Names, path: Path, categories: seq<Category>, entries: seq<Entry>, i: nat, seen: set<Path>)
    requires i < |entries|
    ensures NewFolders(names, path, categories, entries[..i + 1], seen)
         == NewFolders(names, path, categories, entries[..i], seen)
            + (if IsFolder(names, entries[i])
                && path + [entries[i].id.value] !in seen + Children(names, path, entries[..i])
               then [(path + [entries[i].id.value], categories + [CategoryFor(names, entries[i])])] else [])
    ensures FolderTables(names, path, categories, entries[..i + 1])
         == FolderTables(names, path, categories, entries[..i])
            + (if Named(names, entries[i]) && entries[i].kind.TableEntry?
                  && names.fold(entries[i].id.value) !in TableKeys(names, entries[..i])
               then [TableFor(names, path, categories, entries[i])] else [])
  {
    hide Children, TableKeys, CategoryFor, TableFor, Named;
    assert entries[..i + 1][..i] == entries[..i];
  }

  /** The variables of the crawl that one folder's entries change. */
  datatype Crawl = Crawl(pending: Pending, seen: set<Path>, seenTables: set<(Path, string)>, output: seq<Table>)

  /** The loop has worked through `front`, having started from `before`. */
  ghost predicate VisitedSoFar(names: Names, path: Path, categories: seq<Category>, front: seq<Entry>, before: Crawl,
                               now: Crawl) {
    && now.pending == before.pending + NewFolders(names, path, categories, front, before.seen)
    && now.seen == before.seen + Children(names, path, front)
    && |now.seen| <= MAX_NAVIGATION_FOLDERS
    && (forall key :: (path, key) in now.seenTables <==> key in TableKeys(names, front))
    && (forall k :: k in now.seenTables ==> k in before.seenTables || k.0 == path)
    && now.output == before.output + FolderTables(names, path, categories, front)
  }

  lemma VisitedNone(names: Names, path: Path, categories: seq<Category>, before: Crawl)
    requires |before.seen| <= MAX_NAVIGATION_FOLDERS && forall k :: k in before.seenTables ==> k.0 != path
    ensures VisitedSoFar(names, path, categories, [], before, before)
  {
    assert Children(names, path, []) == {};
  }

  lemma VisitedFolder(names: Names, path: Path, categories: seq<Category>, entries: seq<Entry>, i: nat, before: Crawl,
                      now: Crawl)
    requires i < |entries| && VisitedSoFar(names, path, categories, entries[..i], before, now)
    requires IsFolder(names, entries[i])
    ensures var child := path + [entries[i].id.value];
      if child in now.seen then VisitedSoFar(names, path, categories, entries[..i + 1], before, now)
      else |now.seen| < MAX_NAVIGATION_FOLDERS ==>
        VisitedSoFar(names, path, categories, entries[..i + 1], before,
          now.(seen := now.seen + {child},
               pending := now.pending + [(child, categories + [CategoryFor(names, entries[i])])]))
  {
    hide Children, TableKeys, CategoryFor, NewFolders, FolderTables, FolderIds, Named;
    EntriesGrow(names, path, entries, i);
    LoopGrows(names, path, categories, entries, i, before.seen);
  }

  lemma VisitedTable(names: Names, path: Path, categories: seq<Category>, entries: seq<Entry>, i: nat, before: Crawl,
                     now: Crawl)
    requires i < |entries| && VisitedSoFar(names, path, categories, entries[..i], before, now)
    requires Named(names, entries[i]) && entries[i].kind.TableEntry?
    ensures var key := (path, names.fold(entries[i].id.value));
      VisitedSoFar(names, path, categories, entries[..i + 1], before,
        if key in now.seenTables then now
        else now.(seenTables := now.seenTables + {key},
                  output := now.output + [TableFor(names, path, categories, entries[i])]))
  {
    hide Children, TableKeys, TableFor, NewFolders, FolderTables, FolderIds;
    EntriesGrow(names, path, entries, i);
    LoopGrows(names, path, categories, entries, i, before.seen);
  }

  lemma VisitedOther(names: Names, path: Path, categories: seq<Category>, entries: seq<Entry>, i: nat, before: Crawl,
                     now: Crawl)
    requires i < |entries| && VisitedSoFar(names, path, categories, entries[..i], before, now)
    requires !Named(names, entries[i]) || entries[i].kind.OtherEntry?
    ensures VisitedSoFar(names, path, categories, entries[..i + 1], before, now)
  {
    hide Children, TableKeys, NewFolders, FolderTables, FolderIds;
    EntriesGrow(names, path, entries, i);
    LoopGrows(names, path, categories, entries, i, before.seen);
  }

  method Visit(names: Names, path: Path, categories: seq<Category>, entries: seq<Entry>, before: Crawl)
    returns (ok: bool, now: Crawl)
    requires |before.seen| <= MAX_NAVIGATION_FOLDERS
    requires forall k :: k in before.seenTables ==> k.0 != path
    ensures ok ==> VisitedSoFar(names, path, categories, entries, before, now)
    ensures !ok ==> |before.seen + Children(names, path, entries)| > MAX_NAVIGATION_FOLDERS
  {
    ok, now := true, before;
    VisitedNone(names, path, categories, before);
    for i := 0 to |entries|
      invariant ok
      invariant VisitedSoFar(names, path, categories, entries[..i], before, now)
    {
      hide VisitedSoFar;
      var e := entries[i];
      if e.id.None? || names.strip(e.id.value) == "" {
        VisitedOther(names, path, categories, entries, i, before, now);
        continue;
      }
      if e.kind.Folder? {
        VisitedFolder(names, path, categories, entries, i, before, now);
        var child := path + [e.id.value];
        if child in now.seen {
          continue;
        }
        if |now.seen| >= MAX_NAVIGATION_FOLDERS {
          ok := false;
          CapReached(names, path, categories, entries, i, before, now);
          return;
        }
        now := now.(seen := now.seen + {child},
                    pending := now.pending + [(child, categories + [CategoryFor(names, e)])]);
        continue;
      }
      if !e.kind.TableEntry? {
        VisitedOther(names, path, categories, entries, i, before, now);
        continue;
      }
      VisitedTable(names, path, categories, entries, i, before, now);
      var key := (path, names.fold(e.id.value));
      if key in now.seenTables {
        continue;
      }
      now := now.(seenTables := now.seenTables + {key},
                  output := now.output + [TableFor(names, path, categories, e)]);
    }
    assert entries[..|entries|] == entries;
  }

  lemma CapReached(names: Names, path: Path, categories: seq<Category>, entries: seq<Entry>, i: nat, before: Crawl,
                   now: Crawl)
    requires i < |entries| && VisitedSoFar(names, path, categories, entries[..i], before, now)
    requires IsFolder(names, entries[i]) && path + [entries[i].id.value] !in now.seen
    requires |now.seen| >= MAX_NAVIGATION_FOLDERS
    ensures |before.seen + Children(names, path, entries)| > MAX_NAVIGATION_FOLDERS
  {
    var child := path + [entries[i].id.value];
    assert FolderIds(names, entries[..i]) <= FolderIds(names, entries);
    assert entries[i] in entries;
    assert now.seen + {child} <= before.seen + Children(names, path, entries);
    SubsetSize(now.seen + {child}, before.seen + Children(names, path, entries));
  }

  // ---- The crawl --------------------------------------------------------------------------------

  function Queue(pending: Pending): seq<Path> {
    if pending == [] then [] else [pending[0].0] + Queue(pending[1..])
  }

  lemma {:induction false} QueueConcat(a: Pending, b: Pending)
    ensures Queue(a + b) == Queue(a) + Queue(b)
  {
    if a == [] {
      assert a + b == b;
    } else {
      QueueConcat(a[1..], b);
      assert (a + b)[1..] == a[1..] + b;
    }
  }

  lemma {:induction false} QueueAt(pending: Pending)
    ensures |Queue(pending)| == |pending|
    ensures forall i :: 0 <= i < |pending| ==> Queue(pending)[i] == pending[i].0
  {
    if pending != [] {
      QueueAt(pending[1..]);
    }
  }

  /** A queued folder and the categories it carries. */
  ghost predicate Carries(names: Names, api: Path -> Reply, item: (Path, seq<Category>)) {
    Reachable(names, api, item.0) && item.1 == CategoriesOf(names, api, item.0)
  }

  /** The new folders of a reply are its unseen children, each once. */
  lemma {:induction false} NewFoldersPaths(names: Names, path: Path, categories: seq<Category>, entries: seq<Entry>,
                                           seen: set<Path>)
    ensures var queue := Queue(NewFolders(names, path, categories, entries, seen));
      Distinct(queue) && Elements(queue) == Children(names, path, entries) - seen
  {
    hide NewFolders, Children;
    if entries == [] {
      NothingNew(names, path, categories, seen);
    } else {
      var n := |entries| - 1;
      var front, last := entries[..n], entries[n];
      NewFoldersPaths(names, path, categories, front, seen);
      EntriesGrow(names, path, entries, n);
      assert entries[..n + 1] == entries;
      NewFoldersStep(names, path, categories, entries, seen);
      var before := NewFolders(names, path, categories, front, seen);
      if IsFolder(names, last) && path + [last.id.value] !in seen + Children(names, path, front) {
        var q := path + [last.id.value];
        var item := (q, categories + [CategoryFor(names, last)]);
        var one: Pending := [item];
        assert Queue(one) == [q] by { assert one[1..] == []; }
        QueueConcat(before, one);
        assert Queue(NewFolders(names, path, categories, entries, seen)) == Queue(before) + [q];
        ElementsAppend(Queue(before), q);
        assert Children(names, path, entries) - seen == (Children(names, path, front) - seen) + {q};
        assert q !in Queue(before) by { assert q !in Elements(Queue(before)); }
        DistinctAppend(Queue(before), q);
      } else {
        assert before + [] == before;
        assert Children(names, path, entries) - seen == Children(names, path, front) - seen;
      }
    }
  }

  lemma NothingNew(names: Names, path: Path, categories: seq<Category>, seen: set<Path>)
    ensures NewFolders(names, path, categories, [], seen) == [] && Children(names, path, []) == {}
  {
  }

  /** Each new folder is a child of the path and carries the category its first entry gives it. */
  ghost predicate Child(names: Names, path: Path, categories: seq<Category>, entries: seq<Entry>,
                        item: (Path, seq<Category>)) {
    exists id :: id in FolderIds(names, entries)
        && item == (path + [id], categories + [FirstCategory(names, entries, id)])
  }

  lemma FirstStays(names: Names, entries: seq<Entry>, id: string)
    requires entries != [] && id in FolderIds(names, entries)
    ensures var front := entries[..|entries| - 1];
      FirstCategory(names, entries, id)
      == if id in FolderIds(names, front) then FirstCategory(names, front, id)
         else CategoryFor(names, entries[|entries| - 1])
  {
  }

  lemma {:induction false} NewFoldersItems(names: Names, path: Path, categories: seq<Category>, entries: seq<Entry>,
                                           seen: set<Path>, i: nat)
    requires i < |NewFolders(names, path, categories, entries, seen)|
    ensures Child(names, path, categories, entries, NewFolders(names, path, categories, entries, seen)[i])
  {
    hide Children, FirstCategory, FolderIds;
    var n := |entries| - 1;
    var front, last := entries[..n], entries[n];
    EntriesGrow(names, path, entries, n);
    assert entries[..n + 1] == entries;
    var before := NewFolders(names, path, categories, front, seen);
    if i < |before| {
      NewFoldersItems(names, path, categories, front, seen, i);
      var id :| id in FolderIds(names, front)
          && before[i] == (path + [id], categories + [FirstCategory(names, front, id)]);
      FirstStays(names, entries, id);
    } else {
      ChildOf(names, path, front, last.id.value);
      FirstStays(names, entries, last.id.value);
    }
  }

  lemma ChildOf(names: Names, path: Path, entries: seq<Entry>, id: string)
    ensures path + [id] in Children(names, path, entries) <==> id in FolderIds(names, entries)
  {
    if path + [id] in Children(names, path, entries) {
      var other :| other in FolderIds(names, entries) && path + [other] == path + [id];
      assert (path + [other])[|path|] == (path + [id])[|path|];
    }
  }

  lemma NewFoldersStep(names: Names, path: Path, categories: seq<Category>, entries: seq<Entry>, seen: set<Path>)
    requires entries != []
    ensures var front, last := entries[..|entries| - 1], entries[|entries| - 1];
      NewFolders(names, path, categories, entries, seen)
      == NewFolders(names, path, categories, front, seen)
         + (if IsFolder(names, last) && path + [last.id.value] !in seen + Children(names, path, front)
            then [(path + [last.id.value], categories + [CategoryFor(names, last)])] else [])
  {
  }

  /** Requested and queued folders together are the seen ones, each exactly once. */
  ghost predicate Frontier(order: seq<Path>, pending: Pending, seen: set<Path>) {
    && Distinct(order + Queue(pending))
    && Elements(order + Queue(pending)) == seen
    && [] in seen
  }

  /** Requested folders are reachable, answered acceptably, and their children have been seen. */
  ghost predicate Requested(names: Names, api: Path -> Reply, order: seq<Path>, seen: set<Path>) {
    forall i :: 0 <= i < |order| ==>
      && Reachable(names, api, order[i])
      && Acceptable(order[i], api(order[i]))
      && (api(order[i]).Entries? ==> Children(names, order[i], api(order[i]).entries) <= seen)
  }

  predicate NotDeeper(a: Path, b: Path) { |a| <= |b| }

  /** Breadth first: no folder is requested or queued behind a deeper one, and the queue is one level deep at most. */
  ghost predicate Leveled(order: seq<Path>, pending: Pending) {
    && (forall i, j :: 0 <= i < j < |order| ==> NotDeeper(order[i], order[j]))
    && (forall i, j :: 0 <= i < j < |pending| ==> NotDeeper(pending[i].0, pending[j].0))
    && (forall i, j :: 0 <= i < |order| && 0 <= j < |pending| ==> NotDeeper(order[i], pending[j].0))
    && (forall j :: 0 <= j < |pending| ==> |pending[j].0| <= if order == [] then 0 else |order[|order| - 1]| + 1)
  }

  lemma NextLevel(names: Names, order: seq<Path>, pending: Pending, categories: seq<Category>, entries: seq<Entry>,
                  seen: set<Path>)
    requires Leveled(order, pending) && pending != []
    ensures var path := pending[0].0;
      && Leveled(order + [path], pending[1..])
      && Leveled(order + [path], pending[1..] + NewFolders(names, path, categories, entries, seen))
  {
    hide NewFolders;
    var path := pending[0].0;
    var added := NewFolders(names, path, categories, entries, seen);
    forall i | 0 <= i < |added| ensures |added[i].0| == |path| + 1 {
      NewFoldersItems(names, path, categories, entries, seen, i);
    }
  }

  ghost predicate Crawled(names: Names, api: Path -> Reply, order: seq<Path>, now: Crawl) {
    && Frontier(order, now.pending, now.seen)
    && Leveled(order, now.pending)
    && Requested(names, api, order, now.seen)
    && (forall i :: 0 <= i < |now.pending| ==> Carries(names, api, now.pending[i]))
    && (forall k :: k in now.seenTables ==> k.0 in order)
    && |now.seen| <= MAX_NAVIGATION_FOLDERS
    && now.output == TablesOf(names, api, order)
  }

  lemma CrawlStarts(names: Names, api: Path -> Reply)
    ensures Crawled(names, api, [], Crawl([([], [])], {[]}, {}, []))
  {
    assert Queue([([], [])]) == [[]];
    var root: Path := [];
    assert [] + [root] == [root];
  }

  /** Taking the first folder off the queue. */
  lemma Dequeue(order: seq<Path>, pending: Pending, seen: set<Path>)
    requires Frontier(order, pending, seen) && pending != []
    ensures Frontier(order + [pending[0].0], pending[1..], seen)
    ensures pending[0].0 !in order && pending[0].0 in seen
  {
    var path := pending[0].0;
    assert order + Queue(pending) == order + [path] + Queue(pending[1..]);
    var all := order + Queue(pending);
    assert all[|order|] == path;
    forall i | 0 <= i < |order|
      ensures order[i] != path
    {
      assert all[i] == order[i];
    }
  }

  lemma Enqueue(order: seq<Path>, pending: Pending, seen: set<Path>, added: Pending, children: set<Path>)
    requires Frontier(order, pending, seen)
    requires Distinct(Queue(added)) && Elements(Queue(added)) == children - seen
    ensures Frontier(order, pending + added, seen + children)
  {
    hide Queue;
    QueueConcat(pending, added);
    var a, b := order + Queue(pending), Queue(added);
    assert order + Queue(pending + added) == a + b;
    assert forall x :: x in a + b <==> x in a || x in b;
    assert Elements(a + b) == Elements(a) + Elements(b) == seen + children;
    forall i, j | 0 <= i < j < |a + b|
      ensures (a + b)[i] != (a + b)[j]
    {
      if i < |a| <= j {
        assert a[i] in Elements(a) && b[j - |a|] in Elements(b);
      }
    }
  }

  lemma ReachableChild(names: Names, api: Path -> Reply, path: Path, id: string)
    requires Reachable(names, api, path) && api(path).Entries? && id in FolderIds(names, api(path).entries)
    ensures Reachable(names, api, path + [id])
    ensures CategoriesOf(names, api, path + [id])
         == CategoriesOf(names, api, path) + [FirstCategory(names, api(path).entries, id)]
  {
    hide FirstCategory, FolderIds;
    assert (path + [id])[..|path|] == path && (path + [id])[|path|] == id;
  }

  /** The folders that join the queue carry their own categories. */
  lemma NewCarries(names: Names, api: Path -> Reply, path: Path, categories: seq<Category>, seen: set<Path>)
    requires Carries(names, api, (path, categories)) && api(path).Entries?
    ensures var added := NewFolders(names, path, categories, api(path).entries, seen);
      forall i :: 0 <= i < |added| ==> Carries(names, api, added[i])
  {
    hide NewFolders, FirstCategory, FolderIds, Reachable, CategoriesOf;
    var entries := api(path).entries;
    var added := NewFolders(names, path, categories, entries, seen);
    forall i | 0 <= i < |added|
      ensures Carries(names, api, added[i])
    {
      NewFoldersItems(names, path, categories, entries, seen, i);
      var id :| id in FolderIds(names, entries)
          && added[i] == (path + [id], categories + [FirstCategory(names, entries, id)]);
      ReachableChild(names, api, path, id);
    }
  }

  lemma VisitKeeps(names: Names, api: Path -> Reply, order: seq<Path>, now: Crawl, next: Crawl)
    requires Crawled(names, api, order, now) && now.pending != []
    requires var (path, categories) := now.pending[0];
      api(path).Entries?
      && VisitedSoFar(names, path, categories, api(path).entries, now.(pending := now.pending[1..]), next)
    ensures Crawled(names, api, order + [now.pending[0].0], next)
  {
    hide NewFolders, Children, FolderTables, TableKeys, Frontier, Leveled, Reachable, CategoriesOf;
    var (path, categories) := now.pending[0];
    var entries := api(path).entries;
    assert Carries(names, api, now.pending[0]);
    Dequeue(order, now.pending, now.seen);
    NewFoldersPaths(names, path, categories, entries, now.seen);
    NextLevel(names, order, now.pending, categories, entries, now.seen);
    Enqueue(order + [path], now.pending[1..], now.seen, NewFolders(names, path, categories, entries, now.seen),
            Children(names, path, entries));
    NewCarries(names, api, path, categories, now.seen);
    assert (order + [path])[..|order|] == order;
  }

  lemma SkipKeeps(names: Names, api: Path -> Reply, order: seq<Path>, now: Crawl)
    requires Crawled(names, api, order, now) && now.pending != []
    requires var path := now.pending[0].0; !api(path).Entries? && Acceptable(path, api(path))
    ensures Crawled(names, api, order + [now.pending[0].0], now.(pending := now.pending[1..]))
  {
    hide Frontier, Leveled, Reachable, CategoriesOf, FolderTables;
    var path := now.pending[0].0;
    NextLevel(names, order, now.pending, [], [], now.seen);
    assert Carries(names, api, now.pending[0]);
    Dequeue(order, now.pending, now.seen);
    assert (order + [path])[..|order|] == order;
    assert now.output + [] == now.output;
  }

  /** With an empty queue every seen folder has been requested. */
  lemma SeenIsRequested(names: Names, api: Path -> Reply, order: seq<Path>, now: Crawl, path: Path)
    requires Crawled(names, api, order, now) && now.pending == []
    ensures path in now.seen <==> path in order
    ensures [] in now.seen
  {
    hide Requested, Carries, TablesOf;
    assert order + Queue([]) == order;
  }

  lemma RequestedFacts(names: Names, api: Path -> Reply, order: seq<Path>, now: Crawl, path: Path)
    requires Crawled(names, api, order, now) && path in order
    ensures Reachable(names, api, path)
    ensures api(path).Entries? ==> Children(names, path, api(path).entries) <= now.seen
  {
    hide Frontier, Carries, TablesOf, Reachable, Children;
    var i :| 0 <= i < |order| && order[i] == path;
  }

  /** Once the queue is empty, the requested folders are all the reachable ones. */
  lemma {:induction false} AllRequested(names: Names, api: Path -> Reply, order: seq<Path>, now: Crawl, path: Path)
    requires Crawled(names, api, order, now) && now.pending == []
    ensures path in order <==> Reachable(names, api, path)
    decreases |path|
  {
    hide Crawled, Children, FolderIds;
    SeenIsRequested(names, api, order, now, path);
    if path in order {
      RequestedFacts(names, api, order, now, path);
    }
    if path != [] && Reachable(names, api, path) {
      var parent := path[..|path| - 1];
      AllRequested(names, api, order, now, parent);
      RequestedFacts(names, api, order, now, parent);
      ChildOf(names, parent, api(parent).entries, path[|path| - 1]);
      assert parent + [path[|path| - 1]] == path;
    }
  }

  lemma CrawledSize(names: Names, api: Path -> Reply, order: seq<Path>, now: Crawl)
    requires Crawled(names, api, order, now)
    ensures |order| + |now.pending| == |now.seen|
    ensures Distinct(order)
    ensures forall p :: p in now.seen ==> Reachable(names, api, p)
  {
    hide Reachable, TablesOf;
    var all := order + Queue(now.pending);
    DistinctSize(all);
    QueueAt(now.pending);
    assert forall i :: 0 <= i < |order| ==> all[i] == order[i];
    forall p | p in now.seen
      ensures Reachable(names, api, p)
    {
      var i :| 0 <= i < |all| && all[i] == p;
      if i >= |order| {
        assert Carries(names, api, now.pending[i - |order|]);
      }
    }
  }

  lemma ChildrenReachable(names: Names, api: Path -> Reply, path: Path, p: Path)
    requires Reachable(names, api, path) && api(path).Entries? && p in Children(names, path, api(path).entries)
    ensures Reachable(names, api, p)
  {
    var id :| id in FolderIds(names, api(path).entries) && p == path + [id];
    ReachableChild(names, api, path, id);
  }

  /**
   The crawl. No folder is requested twice or behind a deeper one, and never more than the cap. On success the
   requested folders are exactly the reachable ones, and the output is their tables, sorted; every
   failure has the cause it reports.
   */
  method CrawlNavigation(names: Names, api: Path -> Reply)
    returns (r: Result<seq<Table>, Failure>, ghost order: seq<Path>, ghost reached: set<Path>)
    ensures Distinct(order) && |order| <= 10_000
    ensures forall i :: 0 <= i < |order| ==> Reachable(names, api, order[i])
    ensures forall i, j :: 0 <= i < j < |order| ==> |order[i]| <= |order[j]|
    ensures r.Ok? ==>
      && (forall path :: path in order <==> Reachable(names, api, path))
      && r.value == SortTables(names, TablesOf(names, api, order))
      && Sorted(names, r.value) && multiset(r.value) == multiset(TablesOf(names, api, order))
      && (forall i :: 0 <= i < |order| ==>
            || api(order[i]).Entries?
            || (order[i] != [] && api(order[i]) in {HttpError(Some(400)), HttpError(Some(404))}))
      && r.value != []
    ensures r.Err? && r.error.Unanswered? ==>
              && Reachable(names, api, r.error.path) && !api(r.error.path).Entries?
              && (r.error.path == [] || api(r.error.path) !in {HttpError(Some(400)), HttpError(Some(404))})
    ensures r.Err? && r.error.TooManyFolders? ==>
      |reached| > 10_000 && forall path :: path in reached ==> Reachable(names, api, path)
    ensures r.Err? && r.error.NoTables? ==>
      (forall path :: path in order <==> Reachable(names, api, path)) && TablesOf(names, api, order) == []
  {
    var now := Crawl([([], [])], {[]}, {}, []);
    order, reached := [], {};
    CrawlStarts(names, api);
    while now.pending != []
      invariant Crawled(names, api, order, now)
      decreases MAX_NAVIGATION_FOLDERS - |order|
    {
      hide Crawled, Children, VisitedSoFar, Reachable, CategoriesOf, TablesOf;
      CrawledSize(names, api, order, now);
      Taken(names, api, order, now);
      var (path, categories) := now.pending[0];
      ghost var before := order;
      order := order + [path];
      var reply := api(path);
      match reply {
        case HttpError(status) =>
          if path == [] || (status != Some(400) && status != Some(404)) {
            return Err(Unanswered(path)), order, reached;
          }
          SkipKeeps(names, api, before, now);
          now := now.(pending := now.pending[1..]);
        case Malformed =>
          return Err(Unanswered(path)), order, reached;
        case Entries(entries) =>
          var ok, next := Visit(names, path, categories, entries, now.(pending := now.pending[1..]));
          if !ok {
            reached := now.seen + Children(names, path, entries);
            AllReached(names, api, now, path);
            return Err(TooManyFolders), order, reached;
          }
          VisitKeeps(names, api, before, now, next);
          now := next;
      }
    }
    CrawlEnds(names, api, order, now);
    if now.output == [] {
      return Err(NoTables), order, reached;
    }
    return Ok(SortTables(names, now.output)), order, reached;
  }

  lemma AllReached(names: Names, api: Path -> Reply, now: Crawl, path: Path)
    requires forall p :: p in now.seen ==> Reachable(names, api, p)
    requires Reachable(names, api, path) && api(path).Entries?
    ensures forall p :: p in now.seen + Children(names, path, api(path).entries) ==> Reachable(names, api, p)
  {
    hide Reachable, Children;
    forall p | p in Children(names, path, api(path).entries) ensures Reachable(names, api, p) {
      ChildrenReachable(names, api, path, p);
    }
  }

  lemma CrawlEnds(names: Names, api: Path -> Reply, order: seq<Path>, now: Crawl)
    requires Crawled(names, api, order, now) && now.pending == []
    ensures Distinct(order) && |order| <= MAX_NAVIGATION_FOLDERS
    ensures forall i, j :: 0 <= i < j < |order| ==> NotDeeper(order[i], order[j])
    ensures forall path :: path in order <==> Reachable(names, api, path)
    ensures forall i :: 0 <= i < |order| ==>
              || api(order[i]).Entries?
              || (order[i] != [] && api(order[i]) in {HttpError(Some(400)), HttpError(Some(404))})
    ensures now.output == TablesOf(names, api, order)
    ensures Sorted(names, SortTables(names, now.output))
    ensures multiset(SortTables(names, now.output)) == multiset(now.output)
  {
    hide Reachable, SortTables;
    CrawledSize(names, api, order, now);
    forall path: Path ensures path in order <==> Reachable(names, api, path) {
      AllRequested(names, api, order, now, path);
    }
    SortTablesSorts(names, now.output);
    if now.output != [] {
      assert |multiset(SortTables(names, now.output))| == |multiset(now.output)|;
    }
  }

  /** What the invariant says about the folder about to be requested. */
  lemma Taken(names: Names, api: Path -> Reply, order: seq<Path>, now: Crawl)
    requires Crawled(names, api, order, now) && now.pending != []
    ensures |now.seen| <= MAX_NAVIGATION_FOLDERS
    ensures var path := now.pending[0].0;
      && Reachable(names, api, path) && path !in order && Distinct(order + [path])
      && (forall k :: k in now.seenTables ==> k.0 != path)
      && (forall i :: 0 <= i < |order| ==> Reachable(names, api, order[i]))
      && (forall i, j :: 0 <= i < j < |order + [path]| ==> NotDeeper((order + [path])[i], (order + [path])[j]))
  {
    NextLevel(names, order, now.pending, [], [], now.seen);
    hide Reachable, TablesOf, CategoriesOf;
    Dequeue(order, now.pending, now.seen);
    assert Carries(names, api, now.pending[0]);
    CrawledSize(names, api, order, now);
    DistinctAppend(order, now.pending[0].0);
  }

  // ---- What the output contains --------------------------------------------------------------

  lemma {:induction false} FolderTablesSpec(names: Names, path: Path, categories: seq<Category>, entries: seq<Entry>)
    ensures var tables := FolderTables(names, path, categories, entries);
      && (forall i :: 0 <= i < |tables| ==>
            tables[i].path == path && tables[i].categories == categories
            && names.fold(tables[i].id) in TableKeys(names, entries))
      && (forall key :: key in TableKeys(names, entries) ==>
          exists i :: 0 <= i < |tables| && names.fold(tables[i].id) == key)
      && (forall i, j :: 0 <= i < j < |tables| ==> names.fold(tables[i].id) != names.fold(tables[j].id))
  {
    if entries != [] {
      var n := |entries| - 1;
      var front, last := entries[..n], entries[n];
      FolderTablesSpec(names, path, categories, front);
      EntriesGrow(names, path, entries, n);
      assert entries[..n + 1] == entries;
      hide TableKeys, EntryName;
      var before := FolderTables(names, path, categories, front);
      var tables := FolderTables(names, path, categories, entries);
      forall key | key in TableKeys(names, entries)
        ensures exists i :: 0 <= i < |tables| && names.fold(tables[i].id) == key
      {
        if key in TableKeys(names, front) {
          var i :| 0 <= i < |before| && names.fold(before[i].id) == key;
          assert tables[i] == before[i];
        } else {
          assert names.fold(tables[|tables| - 1].id) == key;
        }
      }
    }
  }

  /** The tables of the requested folders, as positions in the output. */
  ghost predicate Covers(names: Names, api: Path -> Reply, order: seq<Path>, tables: seq<Table>) {
    && (forall i :: 0 <= i < |tables| ==>
          && tables[i].path in order && |tables[i].categories| == |tables[i].path|
          && api(tables[i].path).Entries?
          && names.fold(tables[i].id) in TableKeys(names, api(tables[i].path).entries))
    && (forall p, key :: p in order && api(p).Entries? && key in TableKeys(names, api(p).entries) ==>
          exists i :: 0 <= i < |tables| && tables[i].path == p && names.fold(tables[i].id) == key)
    && (forall i, j :: 0 <= i < j < |tables| ==>
          tables[i].path != tables[j].path || names.fold(tables[i].id) != names.fold(tables[j].id))
  }

  lemma CoversMore(names: Names, api: Path -> Reply, order: seq<Path>, path: Path, before: seq<Table>,
                   added: seq<Table>)
    requires path !in order && Covers(names, api, order, before)
    requires forall i :: 0 <= i < |added| ==>
      && added[i].path == path && |added[i].categories| == |path|
      && api(path).Entries? && names.fold(added[i].id) in TableKeys(names, api(path).entries)
    requires api(path).Entries? ==> forall key :: key in TableKeys(names, api(path).entries) ==>
      exists i :: 0 <= i < |added| && names.fold(added[i].id) == key
    requires forall i, j :: 0 <= i < j < |added| ==> names.fold(added[i].id) != names.fold(added[j].id)
    ensures Covers(names, api, order + [path], before + added)
  {
    hide TableKeys;
    var tables := before + added;
    forall p, key | p in order + [path] && api(p).Entries? && key in TableKeys(names, api(p).entries)
      ensures exists i :: 0 <= i < |tables| && tables[i].path == p && names.fold(tables[i].id) == key
    {
      if p in order {
        var i :| 0 <= i < |before| && before[i].path == p && names.fold(before[i].id) == key;
        assert tables[i] == before[i];
      } else {
        assert p == path;
        var i :| 0 <= i < |added| && names.fold(added[i].id) == key;
        assert tables[|before| + i] == added[i];
      }
    }
  }

  lemma FolderIsExact(names: Names, api: Path -> Reply, path: Path)
    requires Reachable(names, api, path)
    ensures var added := TablesAt(names, api, path);
      && (forall i :: 0 <= i < |added| ==>
            && added[i].path == path && |added[i].categories| == |path|
            && api(path).Entries? && names.fold(added[i].id) in TableKeys(names, api(path).entries))
      && (api(path).Entries? ==> forall key :: key in TableKeys(names, api(path).entries) ==>
            exists i :: 0 <= i < |added| && names.fold(added[i].id) == key)
      && (forall i, j :: 0 <= i < j < |added| ==> names.fold(added[i].id) != names.fold(added[j].id))
  {
    hide FolderTables, TableKeys;
    if api(path).Entries? {
      var categories := CategoriesOf(names, api, path);
      assert |categories| == |path|;
      FolderTablesSpec(names, path, categories, api(path).entries);
      assert TablesAt(names, api, path) == FolderTables(names, path, categories, api(path).entries);
    } else {
      assert TablesAt(names, api, path) == [];
    }
  }

  /**
   The crawl's output lists every table of every requested folder exactly once per case-folded
   id, and nothing else, each with one category per component of its folder path.
   */
  lemma {:induction false} OutputIsExact(names: Names, api: Path -> Reply, order: seq<Path>)
    requires Distinct(order) && forall i :: 0 <= i < |order| ==> Reachable(names, api, order[i])
    ensures Covers(names, api, order, TablesOf(names, api, order))
  {
    if order != [] {
      hide Covers, Reachable, TableKeys, TablesAt;
      var n := |order| - 1;
      var front, path := order[..n], order[n];
      OutputIsExact(names, api, front);
      assert path !in front;
      FolderIsExact(names, api, path);
      CoversMore(names, api, front, path, TablesOf(names, api, front), TablesAt(names, api, path));
      assert front + [path] == order;
    }
  }

  // ---- Reached folders, their names and their tables, in terms of the replies --------------------

  /** The entry lists a folder under this id, which is not blank. */
  predicate ListsFolder(names: Names, e: Entry, id: string) {
    e.kind == Folder && e.id == Some(id) && names.strip(id) != ""
  }

  lemma FolderListed(names: Names, entries: seq<Entry>, id: string)
    ensures id in FolderIds(names, entries) <==>
              exists i :: 0 <= i < |entries| && ListsFolder(names, entries[i], id)
  {
    if id in FolderIds(names, entries) {
      var e :| e in entries && IsFolder(names, e) && e.id.value == id;
      var i :| 0 <= i < |entries| && entries[i] == e;
      assert ListsFolder(names, entries[i], id);
    }
    if i :| 0 <= i < |entries| && ListsFolder(names, entries[i], id) {
      assert entries[i] in entries;
    }
  }

  /** A folder is reached exactly if the reply to every folder on the way lists the next one. */
  lemma {:induction false} ReachedStepByStep(names: Names, api: Path -> Reply, path: Path)
    ensures Reachable(names, api, path) <==> forall k :: 0 <= k < |path| ==> ListedAt(names, api, path, k)
    decreases |path|
  {
    hide FolderIds, ListsFolder;
    if path != [] {
      var n := |path| - 1;
      var parent := path[..n];
      ReachedStepByStep(names, api, parent);
      forall k | 0 <= k < n ensures ListedAt(names, api, parent, k) <==> ListedAt(names, api, path, k) {
        assert parent[..k] == path[..k];
      }
      if api(parent).Entries? {
        FolderListed(names, api(parent).entries, path[n]);
      }
      assert ListedAt(names, api, path, n)
          <==> api(parent).Entries? && path[n] in FolderIds(names, api(parent).entries);
    }
  }

  ghost predicate ListedAt(names: Names, api: Path -> Reply, path: Path, k: nat)
    requires k < |path|
  {
    api(path[..k]).Entries?
    && exists i :: 0 <= i < |api(path[..k]).entries| && ListsFolder(names, api(path[..k]).entries[i], path[k])
  }

  /** The cleaned text of an entry, or its id without one. */
  predicate NamedBy(names: Names, e: Entry, name: string) {
    name == if e.text.Some? then names.clean(e.text.value) else if e.id.Some? then e.id.value else ""
  }

  /** The first entry that lists the folder names its category, less the id in front; if nothing is left, by the id. */
  ghost predicate CategoryFrom(names: Names, entries: seq<Entry>, i: nat, id: string, category: Category) {
    && i < |entries| && ListsFolder(names, entries[i], id)
    && (forall j :: 0 <= j < i ==> !ListsFolder(names, entries[j], id))
    && category.id == id
    && exists name :: NamedBy(names, entries[i], name)
         && category.name == if names.stripPrefix(name, id) != "" then names.stripPrefix(name, id) else id
  }

  lemma {:induction false} FirstNames(names: Names, entries: seq<Entry>, id: string) returns (i: nat)
    requires id in FolderIds(names, entries)
    ensures CategoryFrom(names, entries, i, id, FirstCategory(names, entries, id))
  {
    var n := |entries| - 1;
    var front := entries[..n];
    FolderListed(names, front, id);
    FolderListed(names, entries, id);
    FirstStays(names, entries, id);
    hide FolderIds;
    if id in FolderIds(names, front) {
      i := FirstNames(names, front, id);
      assert forall j :: 0 <= j < n ==> front[j] == entries[j];
    } else {
      i := n;
      var k :| 0 <= k < |entries| && ListsFolder(names, entries[k], id);
      assert forall j :: 0 <= j < n ==> front[j] == entries[j];
      assert NamedBy(names, entries[n], EntryName(names, entries[n]));
    }
  }

  /** The categories of a reached folder are named by the replies on the way, outermost first. */
  lemma {:induction false} CategoriesByReplies(names: Names, api: Path -> Reply, path: Path, k: nat) returns (i: nat)
    requires Reachable(names, api, path) && k < |path|
    ensures api(path[..k]).Entries?
    ensures CategoryFrom(names, api(path[..k]).entries, i, path[k], CategoriesOf(names, api, path)[k])
    decreases |path|
  {
    var n := |path| - 1;
    var parent := path[..n];
    if k == n {
      i := FirstNames(names, api(parent).entries, path[n]);
    } else {
      i := CategoriesByReplies(names, api, parent, k);
      assert parent[..k] == path[..k];
    }
  }

  /** The entry lists a table under an id that is not blank. */
  predicate ListsTable(names: Names, e: Entry) {
    e.kind == TableEntry && e.id.Some? && names.strip(e.id.value) != ""
  }

  /** The table is the one of entry `i`, the first of its case-folded id, with all its fields. */
  ghost predicate TableFrom(names: Names, entries: seq<Entry>, i: nat, path: Path, categories: seq<Category>,
                            t: Table) {
    && i < |entries| && ListsTable(names, entries[i]) && entries[i].id == Some(t.id)
    && (forall j :: 0 <= j < i && ListsTable(names, entries[j]) ==>
          names.fold(entries[j].id.value) != names.fold(t.id))
    && t.path == path && t.categories == categories
    && (exists name :: NamedBy(names, entries[i], name) && t.title == if name != "" then name else t.id)
    && t.apiUrl == names.apiUrl(path, t.id) && t.webUrl == names.webUrl(path, t.id)
    && t.updated == if entries[i].updated.Some? then Some(names.strip(entries[i].updated.value)) else None
  }

  lemma TableListed(names: Names, entries: seq<Entry>, key: string)
    ensures key in TableKeys(names, entries) <==>
              exists i :: 0 <= i < |entries| && ListsTable(names, entries[i]) && names.fold(entries[i].id.value) == key
  {
    if key in TableKeys(names, entries) {
      var e :| e in entries && Named(names, e) && e.kind.TableEntry? && names.fold(e.id.value) == key;
      var i :| 0 <= i < |entries| && entries[i] == e;
      assert ListsTable(names, entries[i]);
    }
    if i :| 0 <= i < |entries| && ListsTable(names, entries[i]) && names.fold(entries[i].id.value) == key {
      assert entries[i] in entries;
    }
  }

  /** Every table of a folder comes from the first entry of its case-folded id. */
  lemma {:induction false} TablesByEntries(names: Names, path: Path, categories: seq<Category>, entries: seq<Entry>,
                                           x: nat) returns (i: nat)
    requires x < |FolderTables(names, path, categories, entries)|
    ensures TableFrom(names, entries, i, path, categories, FolderTables(names, path, categories, entries)[x])
  {
    var n := |entries| - 1;
    var front := entries[..n];
    var before := FolderTables(names, path, categories, front);
    assert forall j :: 0 <= j < n ==> front[j] == entries[j];
    if x < |before| {
      i := TablesByEntries(names, path, categories, front, x);
      TableStays(names, front, entries, i, path, categories, before[x]);
    } else {
      i := n;
      TableListed(names, front, names.fold(entries[n].id.value));
      hide TableKeys, FolderTables;
      assert NamedBy(names, entries[n], EntryName(names, entries[n]));
    }
  }

  lemma TableStays(names: Names, front: seq<Entry>, entries: seq<Entry>, i: nat, path: Path, categories: seq<Category>,
                   t: Table)
    requires front <= entries && TableFrom(names, front, i, path, categories, t)
    ensures TableFrom(names, entries, i, path, categories, t)
  {
  }

  /** Every entry that lists a table is represented by the folder's table of the same case-folded id. */
  lemma EntriesHaveTables(names: Names, path: Path, categories: seq<Category>, entries: seq<Entry>, i: nat)
    requires i < |entries| && ListsTable(names, entries[i])
    ensures exists x :: 0 <= x < |FolderTables(names, path, categories, entries)| &&
              names.fold(FolderTables(names, path, categories, entries)[x].id) == names.fold(entries[i].id.value)
  {
    TableListed(names, entries, names.fold(entries[i].id.value));
    FolderTablesSpec(names, path, categories, entries);
  }

  // ---- The order of the output ------------------------------------------------------------------

  /** The strings agree up to `k`, where the first ends or has the smaller character. */
  predicate Before(a: string, b: string, k: nat) {
    k <= |a| && k <= |b| && a[..k] == b[..k] && (k == |a| || (k < |b| && a[k] < b[k]))
  }

  lemma {:induction false} AtMostIs(a: string, b: string)
    ensures AtMost(a, b) <==> exists k :: Before(a, b, k)
  {
    if a == "" {
      assert Before(a, b, 0);
    } else if b != "" {
      AtMostIs(a[1..], b[1..]);
      if a[0] < b[0] {
        assert Before(a, b, 0);
      } else if AtMost(a, b) {
        var k: nat :| Before(a[1..], b[1..], k);
        assert a[..k + 1] == [a[0]] + a[1..][..k] && b[..k + 1] == [b[0]] + b[1..][..k];
        assert Before(a, b, k + 1);
      }
      if k: nat :| Before(a, b, k) && k > 0 {
        assert a[..k][0] == a[0] && b[..k][0] == b[0];
        assert a[1..][..k - 1] == a[..k][1..] && b[1..][..k - 1] == b[..k][1..];
        assert Before(a[1..], b[1..], k - 1);
      }
    }
  }

  /** In the output, folded ids ascend, and folded paths ascend among equal ones, by code points. */
  lemma OutputAscends(names: Names, tables: seq<Table>, i: nat, j: nat)
    requires Sorted(names, tables) && i < j < |tables|
    ensures var a, b := names.fold(tables[i].id), names.fold(tables[j].id);
      if a != b then exists k :: Before(a, b, k)
      else exists k :: Before(names.fold(PathString(tables[i].path)), names.fold(PathString(tables[j].path)), k)
  {
    AtMostIs(names.fold(tables[i].id), names.fold(tables[j].id));
    AtMostIs(names.fold(PathString(tables[i].path)), names.fold(PathString(tables[j].path)));
    hide AtMost, Before;
  }

  /** The path text has a slash in front of every component, and nothing else. */
  lemma {:induction false} PathStringIs(path: Path, k: nat)
    requires k < |path|
    ensures var at := |PathString(path[..k])| - if k == 0 then 1 else 0;
      var text := PathString(path);
      && at + 1 + |path[k]| <= |text| && text[at] == '/' && text[at + 1..at + 1 + |path[k]|] == path[k]
      && (k == |path| - 1 ==> |text| == at + 1 + |path[k]|)
    decreases |path|
  {
    var n := |path| - 1;
    if k < n {
      PathStringIs(path[..n], k);
      assert path[..n][..k] == path[..k];
      var front, text := PathString(path[..n]), PathString(path);
      assert text == front + ("/" + path[n]) && front <= text;
    } else if n > 0 {
      assert PathString(path) == PathString(path[..n]) + ("/" + path[n]);
    }
  }
}
