/**
 The cached category resolver of the PXWeb v1 catalogue (`_resolve_api_category_paths` and
 `_match_folder` in pxweb_v1/catalog.py), against walking every path on its own.
 */
module Resolver {
  import opened Common
  import opened Navigation

  function Filter(entries: seq<Entry>, keep: Entry -> bool): (kept: seq<Entry>)
    ensures forall e :: e in kept <==> e in entries && keep(e)
  {
    if entries == [] then []
    else (if keep(entries[0]) then [entries[0]] else []) + Filter(entries[1..], keep)
  }

  /** An exact match, else a case-insensitive one, else a normalized one; each only if unique. */
  function MatchFolder(names: Names, entries: seq<Entry>, id: string): (r: Option<Entry>)
    ensures r.Some? ==> r.value in entries && r.value.kind.Folder? && r.value.id.Some?
  {
    var folders := Filter(entries, (e: Entry) => e.kind.Folder? && e.id.Some?);
    var exact := Filter(folders, (e: Entry) => e.id == Some(id));
    var folded := Filter(folders, (e: Entry) => e.id.Some? && names.fold(e.id.value) == names.fold(id));
    var normalized := Filter(folders, (e: Entry) => e.id.Some? && names.normalize(e.id.value) == names.normalize(id));
    if |exact| == 1 then Some(exact[0])
    else if |folded| == 1 then Some(folded[0])
    else if |normalized| == 1 then Some(normalized[0])
    else None
  }

  function RequestedCategory(names: Names, e: Entry, id: string): Category {
    var name := if e.text.Some? then names.clean(e.text.value) else id;
    var stripped := names.stripPrefix(name, id);
    Category(id, if stripped != "" then stripped else id)
  }

  /**
   One path walked with fresh requests: the answer of the API's folder for each prefix decides
   the next step. Err carries the folder whose request failed.
   */
  function WalkFrom(names: Names, api: Path -> Reply, parent: Path, rest: Path, found: seq<Category>)
    : Result<Option<seq<Category>>, Path>
    decreases |rest|
  {
    if rest == [] then Ok(Some(found))
    else
      match api(parent)
      case Entries(entries) =>
        (match MatchFolder(names, entries, rest[0])
         case None => Ok(None)
         case Some(e) =>
           WalkFrom(names, api, parent + [e.id.value], rest[1..], found + [RequestedCategory(names, e, rest[0])]))
      case _ => Err(parent)
  }

  function WalkPath(names: Names, api: Path -> Reply, path: Path): Result<Option<seq<Category>>, Path> {
    WalkFrom(names, api, [], path, [])
  }

  ghost predicate Mirrors(api: Path -> Reply, cache: map<Path, seq<Entry>>, fetched: seq<Path>) {
    && Distinct(fetched)
    && (forall p :: p in cache <==> p in fetched)
    && (forall p :: p in cache ==> api(p) == Entries(cache[p]))
  }

  /** The resolutions agree with walking each of the paths alone. */
  ghost predicate Agrees(names: Names, api: Path -> Reply, paths: seq<Path>, resolved: map<Path, seq<Category>>) {
    && (forall p :: p in resolved ==> p in paths)
    && (forall p :: p in paths ==>
          WalkPath(names, api, p) == Ok(if p in resolved then Some(resolved[p]) else None))
  }

  lemma WalkEnds(names: Names, api: Path -> Reply, parent: Path, path: Path, found: seq<Category>)
    ensures WalkFrom(names, api, parent, path[|path|..], found) == Ok(Some(found))
  {
  }

  /** The cache stays faithful when one more folder's entries are stored. */
  lemma Mirrored(api: Path -> Reply, cache: map<Path, seq<Entry>>, fetched: seq<Path>, path: Path, entries: seq<Entry>)
    requires Mirrors(api, cache, fetched) && path !in cache && api(path) == Entries(entries)
    ensures Mirrors(api, cache[path := entries], fetched + [path])
  {
    DistinctAppend(fetched, path);
  }

  lemma CachedReply(api: Path -> Reply, cache: map<Path, seq<Entry>>, fetched: seq<Path>, path: Path)
    requires Mirrors(api, cache, fetched) && path in cache
    ensures api(path) == Entries(cache[path])
  {
  }

  /** One step of a walk: the answer for the parent folder decides how it goes on. */
  lemma WalkStep(names: Names, api: Path -> Reply, parent: Path, path: Path, i: nat, found: seq<Category>)
    requires i < |path|
    ensures WalkFrom(names, api, parent, path[i..], found)
         == match api(parent)
            case Entries(entries) =>
              (match MatchFolder(names, entries, path[i])
               case None => Ok(None)
               case Some(e) =>
                 WalkFrom(names, api, parent + [e.id.value], path[i + 1..],
                          found + [RequestedCategory(names, e, path[i])]))
            case _ => Err(parent)
  {
    assert path[i..][0] == path[i] && path[i..][1..] == path[i + 1..];
  }

  /** One path through the cache; on success the result is that of the fresh walk. */
  method ResolvePath(names: Names, api: Path -> Reply, path: Path, cache0: map<Path, seq<Entry>>,
                     ghost fetched0: seq<Path>)
    returns (r: Result<Option<seq<Category>>, Path>, cache: map<Path, seq<Entry>>, ghost fetched: seq<Path>)
    requires Mirrors(api, cache0, fetched0)
    ensures Mirrors(api, cache, fetched)
    ensures r == WalkPath(names, api, path)
  {
    cache, fetched := cache0, fetched0;
    var actual: Path, categories: seq<Category> := [], [];
    var i := 0;
    assert path[0..] == path;
    assert WalkPath(names, api, path) == WalkFrom(names, api, actual, path[i..], categories);
    hide WalkPath, WalkFrom, MatchFolder, Mirrors, RequestedCategory;
    while i < |path|
      invariant 0 <= i <= |path| && |categories| == i
      invariant Mirrors(api, cache, fetched)
      invariant WalkPath(names, api, path) == WalkFrom(names, api, actual, path[i..], categories)
    {
      WalkStep(names, api, actual, path, i, categories);
      if actual !in cache {
        var reply := api(actual);
        if !reply.Entries? {
          return Err(actual), cache, fetched;
        }
        Mirrored(api, cache, fetched, actual, reply.entries);
        cache := cache[actual := reply.entries];
        fetched := fetched + [actual];
      }
      CachedReply(api, cache, fetched, actual);
      var entry := MatchFolder(names, cache[actual], path[i]);
      if entry.None? {
        return Ok(None), cache, fetched;
      }
      categories := categories + [RequestedCategory(names, entry.value, path[i])];
      actual := actual + [entry.value.id.value];
      i := i + 1;
    }
    WalkEnds(names, api, actual, path, categories);
    return Ok(Some(categories)), cache, fetched;
  }

  /**
   The resolver over all paths: every parent folder is requested at most once, each path
   resolves to exactly what walking it alone would give, and an error is one that a walk meets.
   */
  method ResolveApiCategoryPaths(names: Names, api: Path -> Reply, paths: seq<Path>)
    returns (r: Result<map<Path, seq<Category>>, Path>, ghost fetched: seq<Path>)
    requires Distinct(paths)   // the sorted elements of a set
    ensures Distinct(fetched)
    ensures r.Ok? ==> Agrees(names, api, paths, r.value)
    ensures r.Err? ==> exists p :: p in paths && WalkPath(names, api, p) == Err(r.error)
  {
    var cache: map<Path, seq<Entry>>, resolved: map<Path, seq<Category>> := map[], map[];
    fetched := [];
    for k := 0 to |paths|
      invariant Mirrors(api, cache, fetched)
      invariant Agrees(names, api, paths[..k], resolved)
    {
      var path := paths[k];
      var one;
      one, cache, fetched := ResolvePath(names, api, path, cache, fetched);
      if one.Err? {
        return Err(one.error), fetched;
      }
      assert path !in paths[..k];
      assert forall p :: p in paths[..k + 1] <==> p in paths[..k] || p == path;
      if one.value.Some? {
        resolved := resolved[path := one.value.value];
      }
    }
    assert paths[..|paths|] == paths;
    return Ok(resolved), fetched;
  }

  /** Every step of the path has an accepted match, following the API's own ids. */
  predicate Matched(names: Names, api: Path -> Reply, parent: Path, rest: Path)
    decreases |rest|
  {
    rest == [] ||
    (api(parent).Entries? && MatchFolder(names, api(parent).entries, rest[0]).Some?
     && Matched(names, api, parent + [MatchFolder(names, api(parent).entries, rest[0]).value.id.value], rest[1..]))
  }

  lemma KeepsIds(all: seq<Category>, found: seq<Category>, more: seq<Category>, rest: Path)
    requires rest != [] && |all| == |more| + |rest[1..]| && all[..|more|] == more
    requires |more| == |found| + 1 && more[..|found|] == found && more[|found|].id == rest[0]
    requires forall i :: 0 <= i < |rest[1..]| ==> all[|more| + i].id == rest[1..][i]
    ensures all[..|found|] == found
    ensures forall i :: 0 <= i < |rest| ==> all[|found| + i].id == rest[i]
  {
    assert all[..|found|] == all[..|more|][..|found|];
    forall i | 0 <= i < |rest|
      ensures all[|found| + i].id == rest[i]
    {
      if i == 0 {
        assert all[|found|] == all[..|more|][|found|];
      } else {
        assert all[|more| + (i - 1)].id == rest[1..][i - 1];
      }
    }
  }

  /**
   A path is resolved exactly when every step has an accepted match, and then its categories
   carry the requested ids in their order.
   */
  lemma {:induction false} ResolvedInOrder(names: Names, api: Path -> Reply, parent: Path, rest: Path,
                                           found: seq<Category>)
    ensures var r := WalkFrom(names, api, parent, rest, found);
      && (r.Ok? && r.value.Some? <==> Matched(names, api, parent, rest))
      && (r.Ok? && r.value.Some? ==>
            && |r.value.value| == |found| + |rest|
            && r.value.value[..|found|] == found
            && forall i :: 0 <= i < |rest| ==> r.value.value[|found| + i].id == rest[i])
    decreases |rest|
  {
    if rest != [] && api(parent).Entries? {
      var e := MatchFolder(names, api(parent).entries, rest[0]);
      if e.Some? {
        var more := found + [RequestedCategory(names, e.value, rest[0])];
        ResolvedInOrder(names, api, parent + [e.value.id.value], rest[1..], more);
        var r := WalkFrom(names, api, parent, rest, found);
        if r.Ok? && r.value.Some? {
          KeepsIds(r.value.value, found, more, rest);
        }
      }
    }
  }

  /** A unique spelling always wins, whatever else the listing contains. */
  lemma ExactMatchWins(names: Names, entries: seq<Entry>, e: Entry)
    requires e in entries && e.kind.Folder? && e.id.Some?
    requires forall i, j | 0 <= i < |entries| && 0 <= j < |entries| ::
      entries[i].kind.Folder? && entries[j].kind.Folder? && entries[i].id == entries[j].id == e.id ==> i == j
    ensures MatchFolder(names, entries, e.id.value) == Some(e)
  {
    var folder := (x: Entry) => x.kind.Folder? && x.id.Some?;
    var exact := (x: Entry) => x.id == Some(e.id.value);
    var both := (x: Entry) => x.kind.Folder? && x.id == e.id;
    FilterTwice(entries, folder, exact, both);
    FilterUnique(entries, both, e);
  }

  ghost predicate OnlyOne(entries: seq<Entry>, keep: Entry -> bool) {
    forall i, j :: 0 <= i < |entries| && 0 <= j < |entries| && keep(entries[i]) && keep(entries[j]) ==> i == j
  }

  lemma {:induction false} FilterTwice(entries: seq<Entry>, first: Entry -> bool, second: Entry -> bool,
                                       both: Entry -> bool)
    requires forall e :: e in entries ==> (both(e) <==> first(e) && second(e))
    ensures Filter(Filter(entries, first), second) == Filter(entries, both)
  {
    if entries != [] {
      FilterTwice(entries[1..], first, second, both);
      if first(entries[0]) {
        assert Filter(entries, first)[1..] == Filter(entries[1..], first);
      } else {
        assert Filter(entries, first) == Filter(entries[1..], first);
      }
    }
  }

  lemma {:induction false} FilterUnique(entries: seq<Entry>, keep: Entry -> bool, e: Entry)
    requires e in entries && keep(e) && OnlyOne(entries, keep)
    ensures Filter(entries, keep) == [e]
  {
    if entries[0] == e {
      forall x | x in entries[1..]
        ensures !keep(x)
      {
        var j :| 0 <= j < |entries[1..]| && entries[1..][j] == x;
        assert entries[j + 1] == x;
      }
      NothingKept(entries[1..], keep);
    } else {
      var k :| 0 <= k < |entries| && entries[k] == e;
      assert entries[1..][k - 1] == e;
      forall i, j | 0 <= i < |entries[1..]| && 0 <= j < |entries[1..]| && keep(entries[1..][i]) && keep(entries[1..][j])
        ensures i == j
      {
        assert entries[i + 1] == entries[1..][i] && entries[j + 1] == entries[1..][j];
      }
      assert !keep(entries[0]);
      FilterUnique(entries[1..], keep, e);
    }
  }

  lemma {:induction false} NothingKept(entries: seq<Entry>, keep: Entry -> bool)
    requires forall e :: e in entries ==> !keep(e)
    ensures Filter(entries, keep) == []
  {
    if entries != [] {
      NothingKept(entries[1..], keep);
    }
  }

  // ---- Which folder is matched, and how a walk ends -----------------------------------------------

  /** The same spelling, or the same when case is folded, or when normalized. */
  datatype Likeness = Exact | Folded | Normalized

  /** The entry lists a folder whose id is like the requested one. */
  predicate Like(names: Names, e: Entry, id: string, likeness: Likeness) {
    && e.kind == Folder && e.id.Some?
    && match likeness
       case Exact => e.id.value == id
       case Folded => names.fold(e.id.value) == names.fold(id)
       case Normalized => names.normalize(e.id.value) == names.normalize(id)
  }

  /** Entry `i` is the only folder like the requested one. */
  ghost predicate OnlyLike(names: Names, entries: seq<Entry>, id: string, likeness: Likeness, i: nat) {
    && i < |entries| && Like(names, entries[i], id, likeness)
    && forall j :: 0 <= j < |entries| && j != i ==> !Like(names, entries[j], id, likeness)
  }

  lemma OnlyOneOrNone(entries: seq<Entry>, keep: Entry -> bool) returns (n: int)
    ensures |Filter(entries, keep)| == 1 <==> n >= 0
    ensures n >= 0 ==> n < |entries| && keep(entries[n]) && Filter(entries, keep) == [entries[n]]
    ensures forall i :: 0 <= i < |entries| ==>
              ((keep(entries[i]) && forall j :: 0 <= j < |entries| && j != i ==> !keep(entries[j])) <==> i == n)
  {
    if |entries| == 0 {
      n := -1;
    } else {
      var rest := OnlyOneOrNone(entries[1..], keep);
      assert forall i :: 1 <= i < |entries| ==> entries[1..][i - 1] == entries[i];
      assert forall e :: e in Filter(entries[1..], keep) <==> e in entries[1..] && keep(e);
      if !keep(entries[0]) {
        n := if rest >= 0 then rest + 1 else -1;
      } else if |Filter(entries[1..], keep)| == 0 {
        n := 0;
        forall j | 1 <= j < |entries| ensures !keep(entries[j]) {
          assert entries[1..][j - 1] in entries[1..];
        }
      } else {
        n := -1;
        var e := Filter(entries[1..], keep)[0];
        assert e in Filter(entries[1..], keep);
        var k :| 0 <= k < |entries[1..]| && entries[1..][k] == e;
        assert keep(entries[k + 1]);
      }
      forall i | 0 <= i < |entries|
        ensures (keep(entries[i]) && forall j :: 0 <= j < |entries| && j != i ==> !keep(entries[j])) <==> i == n
      {
        if i > 0 && (keep(entries[i]) && forall j :: 0 <= j < |entries| && j != i ==> !keep(entries[j])) {
          assert forall j :: 0 <= j < |entries[1..]| && j != i - 1 ==> !keep(entries[1..][j]);
          assert i - 1 == rest;
        }
      }
    }
  }

  /** The lists of the resolver hold exactly the folders that are alike. */
  lemma AlikeOnly(names: Names, entries: seq<Entry>, id: string, likeness: Likeness, second: Entry -> bool)
    returns (n: int)
    requires forall e: Entry :: e.kind.Folder? && e.id.Some? ==> (second(e) <==> Like(names, e, id, likeness))
    ensures var kept := Filter(Filter(entries, (e: Entry) => e.kind.Folder? && e.id.Some?), second);
      && (|kept| == 1 <==> n >= 0)
      && (n >= 0 ==> n < |entries| && kept == [entries[n]])
    ensures forall i: nat :: OnlyLike(names, entries, id, likeness, i) <==> i == n
  {
    var both := (e: Entry) => Like(names, e, id, likeness);
    FilterTwice(entries, (e: Entry) => e.kind.Folder? && e.id.Some?, second, both);
    n := OnlyOneOrNone(entries, both);
    assert forall i: nat :: i < |entries| ==> (both(entries[i]) <==> Like(names, entries[i], id, likeness));
  }

  /**
   Which folder is matched: the only one with the same spelling; or else the only one when case is folded;
   or else the only one when normalized; or none.
   */
  lemma MatchedExactly(names: Names, entries: seq<Entry>, id: string) returns (n: int, likeness: Likeness)
    ensures MatchFolder(names, entries, id).Some? <==> n >= 0
    ensures n >= 0 ==> OnlyLike(names, entries, id, likeness, n) && MatchFolder(names, entries, id) == Some(entries[n])
    ensures forall i: nat :: !likeness.Exact? || n < 0 ==> !OnlyLike(names, entries, id, Exact, i)
    ensures forall i: nat :: likeness.Normalized? || n < 0 ==> !OnlyLike(names, entries, id, Folded, i)
    ensures forall i: nat :: n < 0 ==> !OnlyLike(names, entries, id, Normalized, i)
  {
    var exact := AlikeOnly(names, entries, id, Exact, (e: Entry) => e.id == Some(id));
    var folded := AlikeOnly(names, entries, id, Folded,
                            (e: Entry) => e.id.Some? && names.fold(e.id.value) == names.fold(id));
    var normalized := AlikeOnly(names, entries, id, Normalized,
                                (e: Entry) => e.id.Some? && names.normalize(e.id.value) == names.normalize(id));
    n, likeness := if exact >= 0 then exact else if folded >= 0 then folded else normalized,
                   if exact >= 0 then Exact else if folded >= 0 then Folded else Normalized;
    hide OnlyLike, Like;
  }

  /** The ids of the matched entries, which the walk goes through. */
  function Through(es: seq<Entry>): Path
    requires forall i :: 0 <= i < |es| ==> es[i].id.Some?
  {
    seq(|es|, i requires 0 <= i < |es| => es[i].id.value)
  }

  /** The walk goes from `parent` through these entries, each matched in the reply of the folder before. */
  ghost predicate Goes(names: Names, api: Path -> Reply, parent: Path, rest: Path, es: seq<Entry>) {
    && |es| <= |rest| && (forall i :: 0 <= i < |es| ==> es[i].id.Some?)
    && forall i :: 0 <= i < |es| ==> StepsTo(names, api, parent + Through(es[..i]), rest[i], es[i])
  }

  predicate StepsTo(names: Names, api: Path -> Reply, at: Path, id: string, e: Entry) {
    api(at).Entries? && MatchFolder(names, api(at).entries, id) == Some(e)
  }

  /** The category has the requested id, and its name from the entry's cleaned text, or from the id without one. */
  predicate NamedAsRequested(names: Names, e: Entry, id: string, category: Category) {
    && category.id == id
    && var name := if e.text.Some? then names.clean(e.text.value) else id;
       category.name == if names.stripPrefix(name, id) != "" then names.stripPrefix(name, id) else id
  }

  /**
   How a walk ends: it follows the matched folders as far as it can; past the last one it is resolved, with a
   category for every step; before, it fails if that folder's request does, and is dropped if nothing matches.
   */
  lemma {:induction false} WalkOutcome(names: Names, api: Path -> Reply, parent: Path, rest: Path,
                                       found: seq<Category>) returns (es: seq<Entry>)
    ensures Goes(names, api, parent, rest, es)
    ensures var r := WalkFrom(names, api, parent, rest, found); var at := parent + Through(es);
      if |es| == |rest| then
        && r.Ok? && r.value.Some? && |r.value.value| == |found| + |rest| && found <= r.value.value
        && forall i :: 0 <= i < |rest| ==> NamedAsRequested(names, es[i], rest[i], r.value.value[|found| + i])
      else if !api(at).Entries? then r == Err(at)
      else r == Ok(None) && MatchFolder(names, api(at).entries, rest[|es|]) == None
    decreases |rest|
  {
    hide MatchFolder, NamedAsRequested;
    es := [];
    assert parent + Through([]) == parent;
    if rest != [] && api(parent).Entries? && MatchFolder(names, api(parent).entries, rest[0]).Some? {
      var e := MatchFolder(names, api(parent).entries, rest[0]).value;
      var one := RequestedCategory(names, e, rest[0]);
      assert NamedAsRequested(names, e, rest[0], one) by { CategoryNamed(names, e, rest[0]); }
      var later := WalkOutcome(names, api, parent + [e.id.value], rest[1..], found + [one]);
      es := [e] + later;
      GoesOn(names, api, parent, rest, e, later);
      if |es| == |rest| {
        AllNamed(names, rest, e, later, found, one, WalkFrom(names, api, parent, rest, found).value.value);
      }
    }
  }

  lemma GoesOn(names: Names, api: Path -> Reply, parent: Path, rest: Path, e: Entry, later: seq<Entry>)
    requires rest != [] && e.id.Some? && StepsTo(names, api, parent, rest[0], e)
    requires Goes(names, api, parent + [e.id.value], rest[1..], later)
    ensures Goes(names, api, parent, rest, [e] + later)
    ensures parent + Through([e] + later) == parent + [e.id.value] + Through(later)
  {
    hide StepsTo;
    var es := [e] + later;
    forall i | 0 <= i < |es| ensures StepsTo(names, api, parent + Through(es[..i]), rest[i], es[i]) {
      if i > 0 {
        assert es[..i] == [e] + later[..i - 1];
        assert parent + Through(es[..i]) == parent + [e.id.value] + Through(later[..i - 1]);
        assert StepsTo(names, api, parent + [e.id.value] + Through(later[..i - 1]), rest[1..][i - 1], later[i - 1]);
      } else {
        assert parent + Through(es[..0]) == parent;
      }
    }
  }

  lemma AllNamed(names: Names, rest: Path, e: Entry, later: seq<Entry>, found: seq<Category>, one: Category,
                 all: seq<Category>)
    requires |later| + 1 == |rest| && |all| == |found| + |rest| && found + [one] <= all
    requires NamedAsRequested(names, e, rest[0], one)
    requires forall i :: 0 <= i < |later| ==> NamedAsRequested(names, later[i], rest[1..][i], all[|found + [one]| + i])
    ensures forall i :: 0 <= i < |rest| ==> NamedAsRequested(names, ([e] + later)[i], rest[i], all[|found| + i])
  {
    hide NamedAsRequested;
    forall i | 0 <= i < |rest| ensures NamedAsRequested(names, ([e] + later)[i], rest[i], all[|found| + i]) {
      if i > 0 {
        assert NamedAsRequested(names, later[i - 1], rest[1..][i - 1], all[|found + [one]| + (i - 1)]);
      } else {
        assert all[|found|] == (found + [one])[|found|];
      }
    }
  }

  lemma CategoryNamed(names: Names, e: Entry, id: string)
    ensures NamedAsRequested(names, e, id, RequestedCategory(names, e, id))
  {
  }
}
