/**
 The structural rules of dataset metadata (schemas/dimensions.py, schemas/datasets.py) and the
 PXWeb v1 loop that builds dimensions from variables (pxweb_v1/adapter.py).
 */
module Structure {
  import opened Common

  // ---- Blank text -------------------------------------------------------------------------------

  /** `str.strip`: `space` tells which characters are white space. */
  function Strip(space: char -> bool, s: string): (r: string)
    ensures r == [] || (!space(r[0]) && !space(r[|r| - 1]))
  {
    if s != [] && space(s[0]) then Strip(space, s[1..])
    else if s != [] && space(s[|s| - 1]) then Strip(space, s[..|s| - 1])
    else s
  }

  predicate Blank(space: char -> bool, s: string) { Strip(space, s) == "" }

  lemma StripTwice(space: char -> bool, s: string)
    ensures Strip(space, Strip(space, s)) == Strip(space, s)
  {
  }

  // ---- Category indexes -------------------------------------------------------------------------

  /** `{key: ordinal for ordinal, key in enumerate(keys)}`: of equal keys the last one counts. */
  function Enumerate(keys: seq<string>): map<string, int> {
    if keys == [] then map[]
    else Enumerate(keys[..|keys| - 1])[keys[|keys| - 1] := |keys| - 1]
  }

  ghost predicate Injective(index: map<string, int>) {
    forall k, l :: k in index && l in index && k != l ==> index[k] != index[l]
  }

  /** Every ordinal below the size belongs to exactly one key, and no key has any other. */
  ghost predicate IsIndex(index: map<string, int>) {
    && Injective(index)
    && (forall o :: o in index.Values <==> 0 <= o < |index|)
  }

  /** The key of an ordinal. */
  function KeyAt(index: map<string, int>, o: nat): (k: string)
    requires IsIndex(index) && o < |index|
    ensures k in index && index[k] == o
  {
    assert o in index.Values;
    var k :| k in index && index[k] == o;
    k
  }

  /** `sorted(index, key=index.__getitem__)`: the keys in the order of their ordinals. */
  function Ordered(index: map<string, int>): (keys: seq<string>)
    requires IsIndex(index)
    ensures |keys| == |index|
    ensures forall o :: 0 <= o < |keys| ==> keys[o] in index && index[keys[o]] == o
  {
    seq(|index|, o requires 0 <= o < |index| => KeyAt(index, o))
  }

  lemma {:induction false} EnumerateKeys(keys: seq<string>)
    ensures Enumerate(keys).Keys == Elements(keys)
    ensures forall k :: k in Enumerate(keys) ==>
              0 <= Enumerate(keys)[k] < |keys| && keys[Enumerate(keys)[k]] == k
  {
    if keys != [] {
      var front, last := keys[..|keys| - 1], keys[|keys| - 1];
      EnumerateKeys(front);
      assert keys == front + [last];
      ElementsAppend(front, last);
    }
  }

  lemma {:induction false} EnumeratePosition(keys: seq<string>, i: nat)
    requires Distinct(keys) && i < |keys|
    ensures keys[i] in Enumerate(keys) && Enumerate(keys)[keys[i]] == i
  {
    if i < |keys| - 1 {
      EnumeratePosition(keys[..|keys| - 1], i);
    }
  }

  /** A list is numbered densely exactly when it repeats no key. */
  lemma EnumerationIsIndex(keys: seq<string>)
    ensures IsIndex(Enumerate(keys)) <==> Distinct(keys)
    ensures Distinct(keys) ==> |Enumerate(keys)| == |keys|
  {
    if Distinct(keys) {
      DistinctEnumeration(keys);
    } else {
      RepetitionLosesKeys(keys);
      EnumerateLast(keys);
    }
  }

  lemma EnumerateLast(keys: seq<string>)
    requires keys != []
    ensures |keys| - 1 in Enumerate(keys).Values
  {
    assert Enumerate(keys)[keys[|keys| - 1]] == |keys| - 1;
  }

  lemma DistinctEnumeration(keys: seq<string>)
    requires Distinct(keys)
    ensures IsIndex(Enumerate(keys)) && |Enumerate(keys)| == |keys|
  {
    var index := Enumerate(keys);
    EnumerateKeys(keys);
    DistinctSize(keys);
    hide Enumerate;
    assert |index| == |index.Keys|;
    forall o | 0 <= o < |index| ensures o in index.Values {
      EnumeratePosition(keys, o);
      assert index[keys[o]] == o;
    }
  }

  /** Dropping the first of two equal keys loses no key. */
  lemma DropRepeated(keys: seq<string>, i: nat, j: nat)
    requires i < j < |keys| && keys[i] == keys[j]
    ensures Elements(keys) == Elements(keys[..i] + keys[i + 1..])
  {
    var without := keys[..i] + keys[i + 1..];
    assert keys[j] == without[j - 1];
    forall x | x in keys ensures x in without {
      var n :| 0 <= n < |keys| && keys[n] == x;
      assert n < i ==> without[n] == x;
      assert n > i ==> without[n - 1] == x;
    }
  }

  lemma RepetitionLosesKeys(keys: seq<string>)
    requires !Distinct(keys)
    ensures |Enumerate(keys)| < |keys|
  {
    hide Enumerate, Elements;
    var i, j :| 0 <= i < j < |keys| && keys[i] == keys[j];
    EnumerateKeys(keys);
    DropRepeated(keys, i, j);
    ElementsSize(keys[..i] + keys[i + 1..]);
    assert |Enumerate(keys)| == |Enumerate(keys).Keys|;
  }

  lemma {:induction false} ElementsSize(keys: seq<string>)
    ensures |Elements(keys)| <= |keys|
  {
    if keys != [] {
      var front, last := keys[..|keys| - 1], keys[|keys| - 1];
      assert keys == front + [last];
      ElementsSize(front);
      ElementsAppend(front, last);
    }
  }

  /** An index is nothing but a duplicate-free list of keys: the two forms carry the same data. */
  lemma IndexRoundTrip(index: map<string, int>)
    requires IsIndex(index)
    ensures Distinct(Ordered(index)) && Enumerate(Ordered(index)) == index
  {
    var keys := Ordered(index);
    EnumerateKeys(keys);
    forall k | k in index ensures k in keys {
      assert index[k] in index.Values;
      assert keys[index[k]] == k;
    }
  }

  lemma ListRoundTrip(keys: seq<string>)
    requires Distinct(keys)
    ensures IsIndex(Enumerate(keys)) && Ordered(Enumerate(keys)) == keys
  {
    EnumerationIsIndex(keys);
    EnumerateKeys(keys);
    forall i | 0 <= i < |keys| ensures Ordered(Enumerate(keys))[i] == keys[i] {
      EnumeratePosition(keys, i);
    }
  }

  // ---- Roles ------------------------------------------------------------------------------------

  /** `a` is what is left of `b` after dropping some of its items. */
  predicate Subsequence(a: seq<string>, b: seq<string>) {
    a == [] || (b != [] && if a[|a| - 1] == b[|b| - 1] then Subsequence(a[..|a| - 1], b[..|b| - 1])
                           else Subsequence(a, b[..|b| - 1]))
  }

  /** `positions[value]` for each value of a list, `positions` numbering the dimension ids. */
  function Positions(positions: map<string, int>, values: seq<string>): seq<int>
    requires forall i :: 0 <= i < |values| ==> values[i] in positions
  {
    seq(|values|, i requires 0 <= i < |values| => positions[values[i]])
  }

  /** `xs == sorted(xs)`. */
  predicate IsSorted(xs: seq<int>) {
    forall i, j :: 0 <= i < j < |xs| ==> xs[i] <= xs[j]
  }

  /** The validator's test of one role: known ids, in the order of `ids`, none twice. */
  predicate FollowsOrder(values: seq<string>, ids: seq<string>) {
    && (forall i :: 0 <= i < |values| ==> values[i] in Enumerate(ids))
    && IsSorted(Positions(Enumerate(ids), values))
  }

  lemma PositionsInFront(values: seq<string>, ids: seq<string>)
    requires ids != [] && Distinct(ids) && ids[|ids| - 1] !in values
    ensures FollowsOrder(values, ids) <==> FollowsOrder(values, ids[..|ids| - 1])
  {
    var front, last := ids[..|ids| - 1], ids[|ids| - 1];
    assert forall i :: 0 <= i < |values| ==> (values[i] in Enumerate(ids) <==> values[i] in Enumerate(front));
    if forall i :: 0 <= i < |values| ==> values[i] in Enumerate(ids) {
      assert Positions(Enumerate(ids), values) == Positions(Enumerate(front), values);
    }
  }

  lemma OrderWithoutLast(values: seq<string>, ids: seq<string>)
    requires ids != [] && values != [] && values[|values| - 1] == ids[|ids| - 1] && Distinct(ids) && Distinct(values)
    requires FollowsOrder(values, ids)
    ensures FollowsOrder(values[..|values| - 1], ids[..|ids| - 1])
  {
    var rest := values[..|values| - 1];
    assert ids[|ids| - 1] !in rest;
    PositionsInFront(rest, ids);
    hide Enumerate, Distinct;
    assert Positions(Enumerate(ids), rest) == Positions(Enumerate(ids), values)[..|rest|];
  }

  lemma OrderWithLast(values: seq<string>, ids: seq<string>)
    requires ids != [] && values != [] && values[|values| - 1] == ids[|ids| - 1] && Distinct(ids) && Distinct(values)
    requires FollowsOrder(values[..|values| - 1], ids[..|ids| - 1])
    ensures FollowsOrder(values, ids)
  {
    var last, rest, numbers := ids[|ids| - 1], values[..|values| - 1], Enumerate(ids);
    EnumerateKeys(ids);
    assert numbers[last] == |ids| - 1;
    assert last !in rest;
    PositionsInFront(rest, ids);
    hide Enumerate, Distinct;
    forall i | 0 <= i < |values| ensures values[i] in numbers {
      assert i < |rest| ==> values[i] == rest[i];
    }
    assert Positions(numbers, values) == Positions(numbers, rest) + [|ids| - 1];
  }

  /** The last id can only be the last value of a list that follows the order. */
  lemma LastComesLast(values: seq<string>, ids: seq<string>, i: nat)
    requires ids != [] && Distinct(ids) && FollowsOrder(values, ids)
    requires i < |values| && values[i] == ids[|ids| - 1]
    ensures values[|values| - 1] == ids[|ids| - 1]
  {
    EnumerateKeys(ids);
    var places := Positions(Enumerate(ids), values);
    assert places[i] == |ids| - 1;
    assert places[i] <= places[|values| - 1];
    assert values[|values| - 1] in Enumerate(ids);
  }

  /** Ordered and duplicate-free positions mean exactly: a subsequence of the id list. */
  lemma {:induction false} SubsequenceIff(values: seq<string>, ids: seq<string>)
    requires Distinct(ids)
    ensures Subsequence(values, ids) <==> Distinct(values) && FollowsOrder(values, ids)
  {
    if values == [] {
    } else if ids == [] {
      assert values[0] !in Enumerate(ids);
    } else {
      var rest, front, last := values[..|values| - 1], ids[..|ids| - 1], ids[|ids| - 1];
      if values[|values| - 1] == last {
        SubsequenceIff(rest, front);
        SubsequenceIn(rest, front);
        if Subsequence(rest, front) {
          assert last !in rest;
          assert values == rest + [last];
          DistinctAppend(rest, last);
        }
        if Distinct(values) && FollowsOrder(values, ids) {
          OrderWithoutLast(values, ids);
        }
        if Distinct(values) && FollowsOrder(rest, front) {
          OrderWithLast(values, ids);
        }
      } else {
        SubsequenceIff(values, front);
        SubsequenceIn(values, front);
        if last !in values {
          PositionsInFront(values, ids);
        } else if FollowsOrder(values, ids) {
          var i :| 0 <= i < |values| && values[i] == last;
          LastComesLast(values, ids, i);
          assert false;
        }
      }
    }
  }

  lemma {:induction false} SubsequenceIn(values: seq<string>, ids: seq<string>)
    ensures Subsequence(values, ids) ==> forall v :: v in values ==> v in ids
  {
    if values != [] && ids != [] {
      if values[|values| - 1] == ids[|ids| - 1] {
        SubsequenceIn(values[..|values| - 1], ids[..|ids| - 1]);
        assert values == values[..|values| - 1] + [values[|values| - 1]];
      } else {
        SubsequenceIn(values, ids[..|ids| - 1]);
      }
    }
  }

  // ---- The metadata validator -------------------------------------------------------------------

  datatype Role = Time | Geo | Metric

  datatype Category = Category(index: map<string, int>, labels: map<string, string>)

  datatype Dimension = Dimension(title: string, category: Category)

  /** Dimension-level roles; an absent list is `None` in the source. */
  datatype Roles = Roles(time: Option<seq<string>>, geo: Option<seq<string>>, metric: Option<seq<string>>)

  datatype Metadata = Metadata(ids: seq<string>, dims: map<string, Dimension>, roles: Option<Roles>)

  function ListOf(list: Option<seq<string>>): seq<string> { if list.Some? then list.value else [] }

  function RoleLists(roles: Option<Roles>): seq<seq<string>> {
    if roles.None? then []
    else [ListOf(roles.value.time), ListOf(roles.value.geo), ListOf(roles.value.metric)]
  }

  /** Each role is a subsequence of the ids, and no dimension has two roles. */
  ghost predicate RolesFit(ids: seq<string>, lists: seq<seq<string>>) {
    && (forall r :: 0 <= r < |lists| ==> Subsequence(lists[r], ids))
    && (forall q, r :: 0 <= q < r < |lists| ==> Elements(lists[q]) !! Elements(lists[r]))
  }

  ghost predicate Structured(m: Metadata) {
    && m.ids != [] && "" !in m.ids && Distinct(m.ids)
    && m.dims.Keys == Elements(m.ids)
    && RolesFit(m.ids, RoleLists(m.roles))
  }

  /** The inner loop: every value gets the role unless one has been holders to it before. */
  method AssignRole(holders: map<string, nat>, values: seq<string>, role: nat)
    returns (ok: bool, after: map<string, nat>)
    ensures ok <==> Distinct(values) && Elements(values) !! holders.Keys
    ensures ok ==> after.Keys == holders.Keys + Elements(values)
  {
    after := holders;
    var i := 0;
    while i < |values|
      invariant 0 <= i <= |values|
      invariant Distinct(values[..i]) && Elements(values[..i]) !! holders.Keys
      invariant after.Keys == holders.Keys + Elements(values[..i])
    {
      if values[i] in after {
        assert values[i] in values[..i] || values[i] in holders;
        assert values[i] in Elements(values);
        return false, after;
      }
      assert values[..i + 1] == values[..i] + [values[i]];
      DistinctAppend(values[..i], values[i]);
      ElementsAppend(values[..i], values[i]);
      after := after[values[i] := role];
      i := i + 1;
    }
    assert values[..i] == values;
    ok := true;
  }

  ghost function Taken(lists: seq<seq<string>>): set<string> {
    if lists == [] then {} else Taken(lists[..|lists| - 1]) + Elements(lists[|lists| - 1])
  }

  lemma {:induction false} TakenIff(lists: seq<seq<string>>, v: string)
    ensures v in Taken(lists) <==> exists q :: 0 <= q < |lists| && v in Elements(lists[q])
  {
    if lists != [] {
      TakenIff(lists[..|lists| - 1], v);
    }
  }

  lemma RolesFitAppend(ids: seq<string>, lists: seq<seq<string>>, list: seq<string>)
    ensures RolesFit(ids, lists + [list]) <==>
              RolesFit(ids, lists) && Subsequence(list, ids) && Elements(list) !! Taken(lists)
  {
    var more := lists + [list];
    forall v ensures v in Taken(lists) <==> exists q :: 0 <= q < |lists| && v in Elements(lists[q]) {
      TakenIff(lists, v);
    }
    assert forall q :: 0 <= q < |lists| ==> more[q] == lists[q];
    assert more[|lists|] == list;
  }

  lemma RolesFitPrefix(ids: seq<string>, lists: seq<seq<string>>, n: nat)
    requires n <= |lists| && RolesFit(ids, lists)
    ensures RolesFit(ids, lists[..n])
  {
  }

  /** The role part of the validator. */
  method CheckRoles(ids: seq<string>, lists: seq<seq<string>>) returns (ok: bool)
    requires Distinct(ids)
    ensures ok <==> RolesFit(ids, lists)
  {
    var holders: map<string, nat> := map[];
    var r := 0;
    while r < |lists|
      invariant 0 <= r <= |lists|
      invariant RolesFit(ids, lists[..r])
      invariant holders.Keys == Taken(lists[..r])
    {
      SubsequenceIff(lists[r], ids);
      RolesFitAppend(ids, lists[..r], lists[r]);
      assert lists[..r + 1] == lists[..r] + [lists[r]];
      if RolesFit(ids, lists) {
        RolesFitPrefix(ids, lists, r + 1);
      }
      if !FollowsOrder(lists[r], ids) {
        return false;
      }
      var free, more := AssignRole(holders, lists[r], r);
      if !free {
        return false;
      }
      holders := more;
      r := r + 1;
    }
    assert lists[..r] == lists;
    ok := true;
  }

  lemma DistinctIffSize(ids: seq<string>)
    ensures |Elements(ids)| == |ids| <==> Distinct(ids)
  {
    if Distinct(ids) {
      DistinctSize(ids);
    } else {
      RepetitionLosesKeys(ids);
      EnumerateKeys(ids);
      assert |Enumerate(ids)| == |Enumerate(ids).Keys|;
    }
  }

  /** `validate_dimension_structure`, together with the duplicate test of each role list. */
  method ValidateStructure(m: Metadata) returns (ok: bool)
    ensures ok <==>
              && m.ids != [] && "" !in m.ids && (forall i, j :: 0 <= i < j < |m.ids| ==> m.ids[i] != m.ids[j])
              && (forall code :: code in m.dims <==> code in m.ids) && RolesFit(m.ids, RoleLists(m.roles))
    ensures ok <==> Structured(m)
  {
    DistinctIffSize(m.ids);
    if m.ids == [] || "" in m.ids {
      return false;
    }
    if |m.ids| != |Elements(m.ids)| {
      return false;
    }
    if m.dims.Keys != Elements(m.ids) {
      return false;
    }
    ok := CheckRoles(m.ids, RoleLists(m.roles));
  }

  // ---- The category validator -------------------------------------------------------------------

  function Range(n: nat): (r: set<int>)
    ensures |r| == n && forall o :: o in r <==> 0 <= o < n
  {
    if n == 0 then {} else Range(n - 1) + {n - 1}
  }

  /** The index and label tests of `validate_category`, in its order. */
  predicate AcceptsCategory(space: char -> bool, c: Category) {
    && c.index != map[]
    && (forall k :: k in c.index ==> !Blank(space, k))
    && (forall k :: k in c.labels ==> !Blank(space, k))
    && c.index.Keys == c.labels.Keys
    && |c.index.Values| == |c.index|
    && c.index.Values == Range(|c.index|)
    && (forall k :: k in c.labels ==> !Blank(space, c.labels[k]))
  }

  lemma WithoutKey(index: map<string, int>, k: string)
    requires k in index
    ensures var rest := index - {k};
            && index.Values == rest.Values + {index[k]}
            && |rest| == |index| - 1
            && (Injective(index) <==> Injective(rest) && index[k] !in rest.Values)
  {
    var rest := index - {k};
    assert rest.Keys == index.Keys - {k};
    assert |rest.Keys| == |rest| && |index.Keys| == |index|;
    forall v | v in index.Values ensures v in rest.Values + {index[k]} {
      var l :| l in index && index[l] == v;
      assert l != k ==> l in rest && rest[l] == v;
    }
    if Injective(rest) && index[k] !in rest.Values {
      forall x, y | x in index && y in index && x != y ensures index[x] != index[y] {
        assert x != k ==> x in rest && rest[x] in rest.Values;
        assert y != k ==> y in rest && rest[y] in rest.Values;
      }
    }
  }

  /** Equal values make a map's range smaller than its domain. */
  lemma {:induction false} ValuesSize(index: map<string, int>)
    ensures |index.Values| <= |index|
    ensures |index.Values| == |index| <==> Injective(index)
    decreases |index|
  {
    if index != map[] {
      var k :| k in index;
      WithoutKey(index, k);
      hide Injective;
      ValuesSize(index - {k});
    }
  }

  /** Accepted means: a dense numbering of non-blank keys, each with a non-blank label. */
  lemma CategoryIff(space: char -> bool, c: Category)
    ensures AcceptsCategory(space, c) <==>
              && IsIndex(c.index) && c.index != map[] && c.index.Keys == c.labels.Keys
              && (forall k :: k in c.index ==> !Blank(space, k) && !Blank(space, c.labels[k]))
  {
    ValuesSize(c.index);
    hide Blank;
  }

  // ---- The PXWeb v1 builder ---------------------------------------------------------------------

  /**
   One entry of the payload's `variables`: `text` and `code` are "" when missing, `values` is `None`
   when it is not a list, and a missing value text is `None`.
   */
  datatype Variable =
    | NotAnObject
    | Variable(code: string, text: string, values: Option<seq<string>>, texts: seq<Option<string>>, time: bool)

  function Stripped(space: char -> bool, raw: seq<string>): seq<string> {
    seq(|raw|, i requires 0 <= i < |raw| => Strip(space, raw[i]))
  }

  function CodeOf(space: char -> bool, v: Variable): string {
    if v.NotAnObject? then "" else Strip(space, v.code)
  }

  function TitleOf(space: char -> bool, v: Variable): string
    requires v.Variable?
  {
    Strip(space, if v.text != "" then v.text else CodeOf(space, v))
  }

  function TextAt(texts: seq<Option<string>>, i: nat, key: string): string {
    if i < |texts| && texts[i].Some? then texts[i].value else key
  }

  /** What one variable must bring: a code and at least one category id, none blank or repeated. */
  ghost predicate Readable(space: char -> bool, v: Variable) {
    && v.Variable? && CodeOf(space, v) != ""
    && v.values.Some? && v.values.value != []
    && "" !in Stripped(space, v.values.value) && Distinct(Stripped(space, v.values.value))
  }

  /** The category as it should be: dense ordinals in payload order, and each id's own text. */
  ghost predicate CategoryFor(space: char -> bool, v: Variable, c: Category)
    requires v.Variable? && v.values.Some?
  {
    var keys := Stripped(space, v.values.value);
    && c.index == Enumerate(keys)
    && c.labels.Keys == Elements(keys)
    && forall i :: 0 <= i < |keys| ==> keys[i] in c.labels && c.labels[keys[i]] == TextAt(v.texts, i, keys[i])
  }

  /** Texts the validators refuse although the loop does not look at them: a blank title or label. */
  ghost predicate Titled(space: char -> bool, v: Variable) {
    && v.Variable? && v.values.Some? && TitleOf(space, v) != ""
    && forall i :: 0 <= i < |v.values.value| ==>
         !Blank(space, TextAt(v.texts, i, Stripped(space, v.values.value)[i]))
  }

  method BuildCategory(space: char -> bool, v: Variable) returns (r: Option<Category>)
    requires v.Variable? && v.values.Some?
    ensures r.Some? <==> "" !in Stripped(space, v.values.value) && Distinct(Stripped(space, v.values.value))
    ensures r.Some? ==> CategoryFor(space, v, r.value)
  {
    var raw := v.values.value;
    ghost var all := Stripped(space, raw);
    var keys: seq<string>, labels: map<string, string> := [], map[];
    var i := 0;
    while i < |raw|
      invariant 0 <= i <= |raw| && keys == all[..i]
      invariant "" !in keys && Distinct(keys) && labels.Keys == Elements(keys)
      invariant forall j :: 0 <= j < i ==> all[j] in labels && labels[all[j]] == TextAt(v.texts, j, all[j])
    {
      var key := Strip(space, raw[i]);
      assert key == all[i];
      if key == "" || key in labels {
        assert key in all;
        return None;
      }
      ElementsAppend(keys, key);
      assert all[..i + 1] == all[..i] + [key];
      keys := keys + [key];
      labels := labels[key := TextAt(v.texts, i, key)];
      i := i + 1;
    }
    assert all[..i] == all;
    r := Some(Category(Enumerate(keys), labels));
  }

  lemma KeysNotBlank(space: char -> bool, raw: seq<string>, k: string)
    requires "" !in Stripped(space, raw) && k in Stripped(space, raw)
    ensures !Blank(space, k)
  {
    var i :| 0 <= i < |raw| && Stripped(space, raw)[i] == k;
    StripTwice(space, raw[i]);
  }

  /** The category of a readable variable passes the validator as soon as its texts are not blank. */
  lemma BuiltCategoryAccepted(space: char -> bool, v: Variable, c: Category)
    requires Readable(space, v) && CategoryFor(space, v, c)
    ensures AcceptsCategory(space, c) <==>
              forall i :: 0 <= i < |v.values.value| ==>
                !Blank(space, TextAt(v.texts, i, Stripped(space, v.values.value)[i]))
  {
    hide Blank, Enumerate, TextAt, AcceptsCategory;
    var keys := Stripped(space, v.values.value);
    CategoryIff(space, c);
    EnumerationIsIndex(keys);
    EnumerateKeys(keys);
    assert keys[0] in c.index;
    forall k | k in keys ensures !Blank(space, k) {
      KeysNotBlank(space, v.values.value, k);
    }
    hide IsIndex, Distinct, CodeOf;
  }

  /** The ids that got a role, in order. */
  function WithRole(ids: seq<string>, kinds: seq<Option<Role>>, role: Role): seq<string>
    requires |ids| == |kinds|
  {
    if ids == [] then []
    else WithRole(ids[..|ids| - 1], kinds[..|ids| - 1], role)
         + if kinds[|ids| - 1] == Some(role) then [ids[|ids| - 1]] else []
  }

  lemma {:induction false} WithRoleIn(ids: seq<string>, kinds: seq<Option<Role>>, role: Role, x: string)
    requires |ids| == |kinds|
    ensures x in WithRole(ids, kinds, role) <==> exists i :: 0 <= i < |ids| && ids[i] == x && kinds[i] == Some(role)
  {
    if ids != [] {
      WithRoleIn(ids[..|ids| - 1], kinds[..|ids| - 1], role, x);
    }
  }

  lemma {:induction false} WithRoleSubsequence(ids: seq<string>, kinds: seq<Option<Role>>, role: Role)
    requires |ids| == |kinds| && Distinct(ids)
    ensures Subsequence(WithRole(ids, kinds, role), ids)
  {
    if ids != [] {
      var front, last := ids[..|ids| - 1], ids[|ids| - 1];
      var some := WithRole(front, kinds[..|ids| - 1], role);
      WithRoleSubsequence(front, kinds[..|ids| - 1], role);
      if kinds[|ids| - 1] == Some(role) {
        assert (some + [last])[..|some|] == some;
      } else {
        SubsequenceIn(some, front);
        assert last !in front;
        assert WithRole(ids, kinds, role) == some;
        assert some != [] ==> some[|some| - 1] in some;
      }
    }
  }

  /** Whatever roles are detected, the role lists fit the ids. */
  lemma DetectedRolesFit(ids: seq<string>, kinds: seq<Option<Role>>)
    requires |ids| == |kinds| && Distinct(ids)
    ensures RolesFit(ids, [WithRole(ids, kinds, Time), WithRole(ids, kinds, Geo), WithRole(ids, kinds, Metric)])
  {
    hide Subsequence, WithRole, Distinct, Elements, RolesFit;
    WithRoleSubsequence(ids, kinds, Time);
    WithRoleSubsequence(ids, kinds, Geo);
    WithRoleSubsequence(ids, kinds, Metric);
    DifferentRolesDisjoint(ids, kinds, Time, Geo);
    DifferentRolesDisjoint(ids, kinds, Time, Metric);
    DifferentRolesDisjoint(ids, kinds, Geo, Metric);
    ThreeFit(ids, WithRole(ids, kinds, Time), WithRole(ids, kinds, Geo), WithRole(ids, kinds, Metric));
  }

  lemma ThreeFit(ids: seq<string>, a: seq<string>, b: seq<string>, c: seq<string>)
    requires Subsequence(a, ids) && Subsequence(b, ids) && Subsequence(c, ids)
    requires Elements(a) !! Elements(b) && Elements(a) !! Elements(c) && Elements(b) !! Elements(c)
    ensures RolesFit(ids, [a, b, c])
  {
    hide Subsequence, Elements;
  }

  lemma DifferentRolesDisjoint(ids: seq<string>, kinds: seq<Option<Role>>, one: Role, other: Role)
    requires |ids| == |kinds| && Distinct(ids) && one != other
    ensures Elements(WithRole(ids, kinds, one)) !! Elements(WithRole(ids, kinds, other))
  {
    forall x ensures !(x in WithRole(ids, kinds, one) && x in WithRole(ids, kinds, other)) {
      WithRoleIn(ids, kinds, one, x);
      WithRoleIn(ids, kinds, other, x);
    }
  }

  function Codes(space: char -> bool, variables: seq<Variable>): seq<string> {
    seq(|variables|, i requires 0 <= i < |variables| => CodeOf(space, variables[i]))
  }

  /** The payloads that can be described: some variables, all of them complete, no code twice. */
  ghost predicate Describable(space: char -> bool, variables: seq<Variable>) {
    && variables != []
    && (forall i :: 0 <= i < |variables| ==> Complete(space, variables[i]))
    && Distinct(Codes(space, variables))
  }

  ghost predicate Complete(space: char -> bool, v: Variable) { Readable(space, v) && Titled(space, v) }

  /** The dimension of a variable, as the validators accept it. */
  ghost predicate DimensionFor(space: char -> bool, v: Variable, d: Dimension) {
    && v.Variable? && v.values.Some?
    && d.title == TitleOf(space, v) && !Blank(space, d.title)
    && CategoryFor(space, v, d.category) && AcceptsCategory(space, d.category)
  }

  function ListFor(buckets: map<Role, seq<string>>, role: Role): seq<string> {
    if role in buckets then buckets[role] else []
  }

  function ListIn(roles: Option<Roles>, role: Role): seq<string> {
    if roles.None? then []
    else
      match role
      case Time => ListOf(roles.value.time)
      case Geo => ListOf(roles.value.geo)
      case Metric => ListOf(roles.value.metric)
  }

  function Find(buckets: map<Role, seq<string>>, role: Role): Option<seq<string>> {
    if role in buckets then Some(buckets[role]) else None
  }

  /** One round of the loop on its own: the dimension of a variable, or a refusal. */
  method BuildDimension(space: char -> bool, v: Variable) returns (r: Option<Dimension>)
    ensures r.Some? <==> Complete(space, v)
    ensures r.Some? ==> DimensionFor(space, v, r.value)
  {
    if v.NotAnObject? || CodeOf(space, v) == "" || v.values.None? || v.values.value == [] {
      return None;
    }
    StripTwice(space, if v.text != "" then v.text else CodeOf(space, v));
    var title := TitleOf(space, v);
    var category := BuildCategory(space, v);
    if category.None? {
      return None;
    }
    BuiltCategoryAccepted(space, v, category.value);
    hide CategoryFor, TextAt, Stripped;
    if title == "" || !AcceptsCategory(space, category.value) {
      return None;
    }
    r := Some(Dimension(title, category.value));
  }

  /** The first `n` variables are in place. */
  ghost predicate DimensionsOf(space: char -> bool, variables: seq<Variable>, n: nat, dims: map<string, Dimension>) {
    forall j :: 0 <= j < n && j < |variables| ==>
      CodeOf(space, variables[j]) in dims
      && DimensionFor(space, variables[j], dims[CodeOf(space, variables[j])])
  }

  lemma DimensionJoins(space: char -> bool, variables: seq<Variable>, n: nat, dims: map<string, Dimension>,
                       d: Dimension)
    requires DimensionsOf(space, variables, n, dims) && n < |variables|
    requires CodeOf(space, variables[n]) !in dims && DimensionFor(space, variables[n], d)
    ensures DimensionsOf(space, variables, n + 1, dims[CodeOf(space, variables[n]) := d])
  {
    hide CodeOf, DimensionFor;
  }

  /** The buckets hold, per role, the ids that got it. */
  ghost predicate BucketsFor(buckets: map<Role, seq<string>>, ids: seq<string>, kinds: seq<Option<Role>>)
    requires |ids| == |kinds|
  {
    forall role :: ListFor(buckets, role) == WithRole(ids, kinds, role)
  }

  lemma BucketGrows(buckets: map<Role, seq<string>>, ids: seq<string>, kinds: seq<Option<Role>>, code: string,
                    kind: Option<Role>)
    requires |ids| == |kinds| && BucketsFor(buckets, ids, kinds)
    ensures BucketsFor(if kind.Some? then buckets[kind.value := ListFor(buckets, kind.value) + [code]] else buckets,
                       ids + [code], kinds + [kind])
  {
    forall role ensures WithRole(ids + [code], kinds + [kind], role)
                        == WithRole(ids, kinds, role) + if kind == Some(role) then [code] else []
    {
      assert (ids + [code])[..|ids|] == ids && (kinds + [kind])[..|kinds|] == kinds;
    }
  }

  /** `DatasetRole.model_validate(role_buckets) if role_buckets else None`. */
  function RolesFrom(buckets: map<Role, seq<string>>): Option<Roles> {
    if buckets == map[] then None
    else Some(Roles(Find(buckets, Time), Find(buckets, Geo), Find(buckets, Metric)))
  }

  lemma RolesFromLists(buckets: map<Role, seq<string>>)
    ensures RoleLists(RolesFrom(buckets)) == []
         || RoleLists(RolesFrom(buckets)) == [ListFor(buckets, Time), ListFor(buckets, Geo), ListFor(buckets, Metric)]
  {
  }

  lemma ListInIs(buckets: map<Role, seq<string>>, role: Role)
    ensures ListIn(RolesFrom(buckets), role) == ListFor(buckets, role)
  {
  }

  lemma RolesFromFit(buckets: map<Role, seq<string>>, ids: seq<string>, kinds: seq<Option<Role>>)
    requires |ids| == |kinds| && BucketsFor(buckets, ids, kinds) && Distinct(ids)
    ensures RolesFit(ids, RoleLists(RolesFrom(buckets)))
    ensures forall role :: ListIn(RolesFrom(buckets), role) == WithRole(ids, kinds, role)
  {
    DetectedRolesFit(ids, kinds);
    NoRolesFit(ids);
    RolesFromLists(buckets);
    hide RolesFit, WithRole, Distinct, ListFor, ListIn, RolesFrom, RoleLists;
    forall role ensures ListIn(RolesFrom(buckets), role) == WithRole(ids, kinds, role) {
      ListInIs(buckets, role);
    }
  }

  lemma RepeatedCode(space: char -> bool, variables: seq<Variable>, i: nat)
    requires i < |variables| && CodeOf(space, variables[i]) in Codes(space, variables)[..i]
    ensures !Describable(space, variables)
  {
    hide CodeOf, Complete;
    var j :| 0 <= j < i && Codes(space, variables)[j] == CodeOf(space, variables[i]);
    assert Codes(space, variables)[j] == Codes(space, variables)[i];
  }

  /** The variable loop of `resolve_dataset`; `detect` tells the role of a dimension. */
  method BuildDimensions(space: char -> bool, detect: (string, string, bool) -> Option<Role>, variables: seq<Variable>)
    returns (r: Option<Metadata>)
    ensures r.Some? <==> Describable(space, variables)
    ensures r.Some? ==> Structured(r.value) && r.value.ids == Codes(space, variables)
    ensures r.Some? ==> DimensionsOf(space, variables, |variables|, r.value.dims)
    ensures r.Some? ==> forall role ::
              ListIn(r.value.roles, role) == WithRole(r.value.ids, Kinds(space, detect, variables), role)
  {
    hide Complete, DimensionFor, DimensionsOf, BucketsFor, RolesFit, WithRole, CodeOf, TitleOf, ListIn;
    hide RoleLists, RolesFrom;
    ghost var codes, kinds := Codes(space, variables), Kinds(space, detect, variables);
    var ids: seq<string>, dims: map<string, Dimension>, buckets: map<Role, seq<string>> := [], map[], map[];
    assert DimensionsOf(space, variables, 0, dims) && BucketsFor(buckets, ids, []) by { NothingYet(space, variables); }
    var i := 0;
    while i < |variables|
      invariant 0 <= i <= |variables| && ids == codes[..i]
      invariant Distinct(ids) && "" !in ids && dims.Keys == Elements(ids)
      invariant forall j :: 0 <= j < i ==> Complete(space, variables[j])
      invariant DimensionsOf(space, variables, i, dims)
      invariant BucketsFor(buckets, ids, kinds[..i])
    {
      var v := variables[i];
      var dimension := BuildDimension(space, v);
      if dimension.None? {
        return None;
      }
      CompleteHasCode(space, v);
      var code := CodeOf(space, v);
      assert codes[i] == code;
      if code in dims {
        RepeatedCode(space, variables, i);
        return None;
      }
      var kind := detect(code, TitleOf(space, v), v.time);
      assert kinds[i] == kind;
      BucketGrows(buckets, ids, kinds[..i], code, kind);
      DimensionJoins(space, variables, i, dims, dimension.value);
      DistinctAppend(ids, code);
      ElementsAppend(ids, code);
      if kind.Some? {
        buckets := buckets[kind.value := ListFor(buckets, kind.value) + [code]];
      }
      assert codes[..i + 1] == codes[..i] + [code];
      assert kinds[..i + 1] == kinds[..i] + [kind];
      ids := ids + [code];
      dims := dims[code := dimension.value];
      i := i + 1;
    }
    if ids == [] {
      return None;
    }
    assert codes[..i] == codes && kinds[..i] == kinds;
    RolesFromFit(buckets, ids, kinds);
    r := Some(Metadata(ids, dims, RolesFrom(buckets)));
  }

  lemma NothingYet(space: char -> bool, variables: seq<Variable>)
    ensures DimensionsOf(space, variables, 0, map[]) && BucketsFor(map[], [], [])
  {
  }

  lemma NoRolesFit(ids: seq<string>)
    ensures RolesFit(ids, [])
  {
  }

  lemma CompleteHasCode(space: char -> bool, v: Variable)
    requires Complete(space, v)
    ensures v.Variable? && CodeOf(space, v) != ""
  {
  }

  function Kinds(space: char -> bool, detect: (string, string, bool) -> Option<Role>,
                 variables: seq<Variable>): seq<Option<Role>> {
    seq(|variables|, i requires 0 <= i < |variables| =>
      if variables[i].Variable?
      then detect(CodeOf(space, variables[i]), TitleOf(space, variables[i]), variables[i].time)
      else None)
  }

  // ---- What the builder reads, plainly ----------------------------------------------------------

  /** Stripping takes white space off both ends, and nothing else. */
  lemma {:induction false} StripExactly(space: char -> bool, s: string) returns (i: nat, j: nat)
    ensures i <= j <= |s| && Strip(space, s) == s[i..j]
    ensures forall k :: 0 <= k < |s| && (k < i || j <= k) ==> space(s[k])
    decreases |s|
  {
    if s != [] && space(s[0]) {
      var x, y := StripExactly(space, s[1..]);
      assert s[1..][x..y] == s[x + 1..y + 1];
      assert forall k :: 1 <= k < |s| ==> s[1..][k - 1] == s[k];
      i, j := x + 1, y + 1;
    } else if s != [] && space(s[|s| - 1]) {
      i, j := StripExactly(space, s[..|s| - 1]);
      assert s[..|s| - 1][i..j] == s[i..j];
    } else {
      i, j := 0, |s|;
    }
  }

  /** The label of value `i`: its own text, or its stripped id without one. */
  predicate LabelOf(space: char -> bool, v: Variable, i: nat, text: string)
    requires v.Variable? && v.values.Some? && i < |v.values.value|
  {
    text == if i < |v.texts| && v.texts[i].Some? then v.texts[i].value else Strip(space, v.values.value[i])
  }

  /** What a built dimension says about its variable. */
  lemma DimensionReads(space: char -> bool, v: Variable, d: Dimension, i: nat)
    requires DimensionFor(space, v, d) && i < |v.values.value| && Distinct(Stripped(space, v.values.value))
    ensures d.title == if v.text != "" then Strip(space, v.text) else Strip(space, v.code)
    ensures var key := Strip(space, v.values.value[i]);
      && key in d.category.index && d.category.index[key] == i
      && key in d.category.labels && LabelOf(space, v, i, d.category.labels[key])
    ensures |d.category.index| == |v.values.value|
  {
    var keys := Stripped(space, v.values.value);
    StripTwice(space, v.code);
    EnumeratePosition(keys, i);
    EnumerationIsIndex(keys);
    hide AcceptsCategory, Enumerate, Distinct, Strip;
    assert keys[i] == Strip(space, v.values.value[i]);
  }

  /** A dimension has the role that its stripped code, its title and its time flag suggest, and no other. */
  lemma DetectedRole(space: char -> bool, detect: (string, string, bool) -> Option<Role>, variables: seq<Variable>,
                     role: Role, i: nat)
    requires i < |variables| && Distinct(Codes(space, variables)) && variables[i].Variable?
    ensures |Codes(space, variables)| == |variables| == |Kinds(space, detect, variables)|
    ensures var v := variables[i]; var code := Strip(space, v.code);
      code in WithRole(Codes(space, variables), Kinds(space, detect, variables), role)
      <==> detect(code, Strip(space, if v.text != "" then v.text else code), v.time) == Some(role)
  {
    var codes, kinds := Codes(space, variables), Kinds(space, detect, variables);
    WithRoleIn(codes, kinds, role, codes[i]);
    hide WithRole, Strip;
    assert codes[i] == Strip(space, variables[i].code);
    assert kinds[i] == detect(codes[i], TitleOf(space, variables[i]), variables[i].time);
    assert forall j :: 0 <= j < |codes| && codes[j] == codes[i] ==> j == i;
  }

  /** A text is blank exactly if it is all white space. */
  lemma BlankIsSpace(space: char -> bool, s: string)
    ensures Blank(space, s) <==> forall k :: 0 <= k < |s| ==> space(s[k])
  {
    var i, j := StripExactly(space, s);
    hide Strip;
    assert i < j ==> Strip(space, s)[0] == s[i];
  }
}
