/**
 PXWeb table URLs (pxweb_v1/catalog.py, pxweb_v1/parsing.py, schemas/contracts.py): percent
 coding, the printer `_table_web_url` and the parser `_ids_from_href`. Text is its UTF-8 bytes.
 */
module WebUrl {
  import opened Common

  type Byte = b: int | 0 <= b < 256

  type Text = seq<Byte>

  const PERCENT: Byte := 37
  const SLASH: Byte := 47
  const BAR: Byte := 95     // '_'

  // ---- Percent coding (sections 2.1-2.4 of RFC 3986) --------------------------------------

  predicate Unreserved(b: Byte) {
    || 65 <= b <= 90 || 97 <= b <= 122 || 48 <= b <= 57 || b == BAR || b == 46 || b == 45 || b == 126
  }

  function HexDigit(n: nat): Byte
    requires n < 16
  {
    if n < 10 then 48 + n else 55 + n
  }

  function HexValue(b: Byte): Option<nat> {
    if 48 <= b <= 57 then Some(b - 48)
    else if 65 <= b <= 70 then Some(b - 55)
    else if 97 <= b <= 102 then Some(b - 87)
    else None
  }

  function QuoteByte(safe: set<Byte>, b: Byte): Text {
    if Unreserved(b) || b in safe then [b] else [PERCENT, HexDigit(b / 16), HexDigit(b % 16)]
  }

  function Quote(safe: set<Byte>, s: Text): Text {
    if s == [] then [] else QuoteByte(safe, s[0]) + Quote(safe, s[1..])
  }

  predicate Escape(s: Text) {
    |s| >= 3 && s[0] == PERCENT && HexValue(s[1]).Some? && HexValue(s[2]).Some?
  }

  function Unquote(s: Text): Text {
    if s == [] then []
    else if Escape(s) then [(HexValue(s[1]).value * 16 + HexValue(s[2]).value) as Byte] + Unquote(s[3..])
    else [s[0]] + Unquote(s[1..])
  }

  lemma UnquoteByte(b: Byte, tail: Text)
    ensures Unquote(QuoteByte({}, b) + tail) == [b] + Unquote(tail)
  {
    var q := QuoteByte({}, b);
    assert (q + tail)[|q|..] == tail;
    if |q| == 3 {
      assert Escape(q + tail);
    } else {
      assert (q + tail)[0] != PERCENT;
    }
  }

  /** Decoding undoes encoding, also in front of further text. */
  lemma {:induction false} UnquoteQuote(s: Text, rest: Text)
    ensures Unquote(Quote({}, s) + rest) == s + Unquote(rest)
  {
    hide QuoteByte, Escape;
    if s == [] {
      assert Quote({}, s) + rest == rest;
    } else {
      UnquoteQuote(s[1..], rest);
      var tail := Quote({}, s[1..]) + rest;
      assert Quote({}, s) + rest == QuoteByte({}, s[0]) + tail;
      UnquoteByte(s[0], tail);
      assert s + Unquote(rest) == [s[0]] + (s[1..] + Unquote(rest));
    }
  }

  /** `_encode_segment`. */
  function EncodeSegment(value: Text): Text { Quote({}, Unquote(value)) }

  lemma EncodeSegmentIdempotent(value: Text)
    ensures EncodeSegment(EncodeSegment(value)) == EncodeSegment(value)
  {
    UnquoteWhole(Unquote(value));
  }

  lemma {:induction false} QuoteConcat(safe: set<Byte>, a: Text, b: Text)
    ensures Quote(safe, a + b) == Quote(safe, a) + Quote(safe, b)
  {
    hide QuoteByte;
    if a == [] {
      assert a + b == b;
    } else {
      QuoteConcat(safe, a[1..], b);
      assert (a + b)[1..] == a[1..] + b;
      assert Quote(safe, a + b) == QuoteByte(safe, a[0]) + Quote(safe, (a + b)[1..]);
      assert QuoteByte(safe, a[0]) + (Quote(safe, a[1..]) + Quote(safe, b))
          == (QuoteByte(safe, a[0]) + Quote(safe, a[1..])) + Quote(safe, b);
    }
  }

  lemma QuoteKept(safe: set<Byte>, b: Byte)
    requires Unreserved(b) || b in safe
    ensures Quote(safe, [b]) == [b]
  {
    assert Quote(safe, [b]) == [b] + Quote(safe, [b][1..]);
  }

  /** `encoded_url` encodes a component once and for all: `%` is safe there, so escapes stay. */
  lemma {:induction false} ComponentQuotingIdempotent(safe: set<Byte>, s: Text)
    requires PERCENT in safe
    ensures Quote(safe, Quote(safe, s)) == Quote(safe, s)
  {
    if s != [] {
      var q := QuoteByte(safe, s[0]);
      ComponentQuotingIdempotent(safe, s[1..]);
      QuoteConcat(safe, q, Quote(safe, s[1..]));
      if |q| == 1 {
        QuoteKept(safe, s[0]);
      } else {
        QuoteKept(safe, PERCENT);
        QuoteKept(safe, q[1]);
        QuoteKept(safe, q[2]);
        assert q == [PERCENT] + ([q[1]] + [q[2]]);
        QuoteConcat(safe, [PERCENT], [q[1]] + [q[2]]);
        QuoteConcat(safe, [q[1]], [q[2]]);
      }
    }
  }

  // ---- Splitting -------------------------------------------------------------------------

  /** The byte joins the first part. */
  function Prepend(b: Byte, parts: seq<Text>): (r: seq<Text>)
    requires |parts| > 0
    ensures |r| == |parts|
  {
    [[b] + parts[0]] + parts[1..]
  }

  /** `s.split("/")`. */
  function SplitSlash(s: Text): (parts: seq<Text>)
    ensures |parts| > 0
  {
    if s == [] then [[]]
    else if s[0] == SLASH then [[]] + SplitSlash(s[1..])
    else Prepend(s[0], SplitSlash(s[1..]))
  }

  /** `s.split("__")`: separators are taken greedily from the left. */
  function SplitBars(s: Text): (parts: seq<Text>)
    ensures |parts| > 0
  {
    if |s| < 2 then [s]
    else if s[0] == BAR && s[1] == BAR then [[]] + SplitBars(s[2..])
    else Prepend(s[0], SplitBars(s[1..]))
  }

  function NonEmpty(parts: seq<Text>): seq<Text> {
    if parts == [] then []
    else (if parts[0] == [] then [] else [parts[0]]) + NonEmpty(parts[1..])
  }

  function Decoded(parts: seq<Text>): seq<Text> {
    if parts == [] then [] else [Unquote(parts[0])] + Decoded(parts[1..])
  }

  function Tokens(segments: seq<Text>): seq<Text> {
    if segments == [] then [] else NonEmpty(SplitBars(segments[0])) + Tokens(segments[1..])
  }

  function Joined(parts: seq<Text>): Text {
    if parts == [] then [] else if |parts| == 1 then parts[0] else parts[0] + [BAR, BAR] + Joined(parts[1..])
  }

  function Quoted(parts: seq<Text>): seq<Text> {
    if parts == [] then [] else [Quote({}, parts[0])] + Quoted(parts[1..])
  }

  // ---- Printer and parser -------------------------------------------------------------------

  datatype Ids = Ids(tableId: Text, categories: seq<Text>)

  /** The last path segment of the web root names the database. */
  function DatabaseId(root: Text): Text {
    var parts := SplitSlash(root);
    Unquote(parts[|parts| - 1])
  }

  /** `_table_web_url`, from the path of the web root on. */
  function TableWebPath(root: Text, path: seq<Text>, tableId: Text): Text {
    root + [SLASH] + Joined(Quoted([DatabaseId(root)] + path)) + [SLASH] + Quote({}, tableId) + [SLASH]
  }

  /** `_ids_from_href` on the path of a link. */
  function IdsFromPath(href: Text, count: nat): Option<Ids> {
    var segments := Decoded(NonEmpty(SplitSlash(href)));
    if segments == [] then None
    else
      var last := |segments| - 1;
      var tokens := Tokens(segments[..last]);
      if count > |tokens| then None
      else Some(Ids(segments[last], tokens[|tokens| - count..]))
  }

  // ---- When does the parser recover what was printed? ----------------------------------------

  ghost predicate NoSeparator(s: Text) {
    forall i :: 0 <= i < |s| - 1 ==> !(s[i] == BAR && s[i + 1] == BAR)
  }

  /** Greedy splitting of `s` leaves no single trailing underscore: its last run of them is even. */
  predicate Clean(s: Text) {
    if s == [] then true
    else if |s| == 1 then s[0] != BAR
    else if s[0] == BAR && s[1] == BAR then Clean(s[2..])
    else Clean(s[1..])
  }

  ghost predicate Separable(parts: seq<Text>) {
    && (forall i :: 0 <= i < |parts| ==> NoSeparator(parts[i]))
    && (forall i :: 0 <= i < |parts| - 1 ==> Clean(parts[i]))
  }

  /** The condition on database id and path under which the URL can be read back. */
  ghost predicate Recoverable(db: Text, path: seq<Text>) {
    && (forall i :: 0 <= i < |path| ==> path[i] != [] && NoSeparator(path[i]))
    && (path != [] ==> Clean(db))
    && (forall i :: 0 <= i < |path| - 1 ==> path[i][|path[i]| - 1] != BAR)
  }

  lemma PrependConcat(b: Byte, p: seq<Text>, q: seq<Text>)
    requires |p| > 0
    ensures Prepend(b, p + q) == Prepend(b, p) + q
  {
  }

  lemma SplitAtBars(s: Text)
    requires |s| >= 2 && s[0] == BAR && s[1] == BAR
    ensures SplitBars(s) == [[]] + SplitBars(s[2..])
  {
  }

  lemma SplitBehind(s: Text)
    requires |s| >= 2 && !(s[0] == BAR && s[1] == BAR)
    ensures SplitBars(s) == Prepend(s[0], SplitBars(s[1..]))
  {
  }

  lemma {:induction false} SplitClean(a: Text, b: Text)
    requires Clean(a)
    ensures SplitBars(a + [BAR, BAR] + b) == SplitBars(a) + SplitBars(b)
  {
    hide Prepend;
    var s := a + [BAR, BAR] + b;
    if a == [] {
      assert s[2..] == b;
    } else if |a| == 1 {
      assert s[1..] == [BAR, BAR] + b && s[1..][2..] == b;
      PrependConcat(a[0], [[]], SplitBars(b));
      PrependOne(a);
    } else if a[0] == BAR && a[1] == BAR {
      SplitClean(a[2..], b);
      SplitCleanBars(a, b);
    } else {
      SplitClean(a[1..], b);
      SplitCleanByte(a, b);
    }
  }

  lemma SplitCleanBars(a: Text, b: Text)
    requires |a| >= 2 && a[0] == BAR && a[1] == BAR
    requires SplitBars(a[2..] + [BAR, BAR] + b) == SplitBars(a[2..]) + SplitBars(b)
    ensures SplitBars(a + [BAR, BAR] + b) == SplitBars(a) + SplitBars(b)
  {
    hide SplitBars;
    var s := a + [BAR, BAR] + b;
    assert s[2..] == a[2..] + [BAR, BAR] + b;
    SplitAtBars(s);
    SplitAtBars(a);
    Associate([[]], SplitBars(a[2..]), SplitBars(b));
  }

  lemma SplitCleanByte(a: Text, b: Text)
    requires |a| >= 2 && !(a[0] == BAR && a[1] == BAR)
    requires SplitBars(a[1..] + [BAR, BAR] + b) == SplitBars(a[1..]) + SplitBars(b)
    ensures SplitBars(a + [BAR, BAR] + b) == SplitBars(a) + SplitBars(b)
  {
    hide SplitBars, Prepend;
    var s := a + [BAR, BAR] + b;
    assert s[0] == a[0] && s[1] == a[1];
    assert s[1..] == a[1..] + [BAR, BAR] + b;
    SplitBehind(s);
    SplitBehind(a);
    PrependConcat(a[0], SplitBars(a[1..]), SplitBars(b));
  }

  lemma PrependOne(a: Text)
    requires |a| == 1
    ensures Prepend(a[0], [[]]) == [a]
  {
    assert [a[0]] + [] == a;
  }

  lemma {:induction false} SplitNoSeparator(s: Text)
    requires NoSeparator(s)
    ensures SplitBars(s) == [s]
  {
    if |s| >= 2 {
      assert !(s[0] == BAR && s[0 + 1] == BAR);
      SplitNoSeparator(s[1..]);
      assert [s[0]] + s[1..] == s;
    }
  }

  lemma {:induction false} CleanNoSeparator(s: Text)
    requires NoSeparator(s)
    ensures Clean(s) <==> s == [] || s[|s| - 1] != BAR
  {
    if |s| >= 2 {
      assert !(s[0] == BAR && s[0 + 1] == BAR);
      CleanNoSeparator(s[1..]);
    }
  }

  lemma {:induction false} SplitJoined(parts: seq<Text>)
    requires parts != [] && Separable(parts)
    ensures SplitBars(Joined(parts)) == parts
  {
    hide SplitBars, NoSeparator, Clean;
    SplitNoSeparator(parts[0]);
    if |parts| > 1 {
      assert Separable(parts[1..]);
      SplitJoined(parts[1..]);
      SplitClean(parts[0], Joined(parts[1..]));
      assert [parts[0]] + parts[1..] == parts;
    }
  }

  lemma {:induction false} NonEmptyConcat(a: seq<Text>, b: seq<Text>)
    ensures NonEmpty(a + b) == NonEmpty(a) + NonEmpty(b)
  {
    if a == [] {
      assert a + b == b;
    } else {
      NonEmptyConcat(a[1..], b);
      assert (a + b)[1..] == a[1..] + b;
      var head := if a[0] == [] then [] else [a[0]];
      assert NonEmpty(a + b) == head + NonEmpty((a + b)[1..]);
      assert head + (NonEmpty(a[1..]) + NonEmpty(b)) == (head + NonEmpty(a[1..])) + NonEmpty(b);
    }
  }

  lemma {:induction false} NonEmptyKeeps(parts: seq<Text>)
    requires forall i :: 0 <= i < |parts| ==> parts[i] != []
    ensures NonEmpty(parts) == parts
  {
    if parts != [] {
      NonEmptyKeeps(parts[1..]);
    }
  }

  /** Behind a clean database id, the tokens of the route end with the path. */
  lemma RouteTokens(db: Text, path: seq<Text>)
    requires path != [] && Recoverable(db, path)
    ensures NonEmpty(SplitBars(Joined([db] + path))) == NonEmpty(SplitBars(db)) + path
  {
    forall i | 0 <= i < |path| - 1
      ensures Clean(path[i])
    {
      CleanNoSeparator(path[i]);
    }
    SplitJoined(path);
    SplitClean(db, Joined(path));
    assert ([db] + path)[1..] == path;
    NonEmptyConcat(SplitBars(db), path);
    NonEmptyKeeps(path);
  }

  // ---- From the printed path to the tokens ------------------------------------------------

  predicate NoSlash(s: Text) { SLASH !in s }

  lemma {:induction false} SplitNoSlash(s: Text)
    requires NoSlash(s)
    ensures SplitSlash(s) == [s]
  {
    if s != [] {
      SplitNoSlash(s[1..]);
      assert [s[0]] + s[1..] == s;
    }
  }

  lemma {:induction false} SplitSlashConcat(a: Text, b: Text)
    ensures SplitSlash(a + [SLASH] + b) == SplitSlash(a) + SplitSlash(b)
  {
    hide Prepend;
    var s := a + [SLASH] + b;
    if a == [] {
      assert s[1..] == b;
    } else {
      SplitSlashConcat(a[1..], b);
      assert s[1..] == a[1..] + [SLASH] + b;
      if a[0] == SLASH {
        assert [[]] + (SplitSlash(a[1..]) + SplitSlash(b)) == ([[]] + SplitSlash(a[1..])) + SplitSlash(b);
      } else {
        PrependConcat(a[0], SplitSlash(a[1..]), SplitSlash(b));
      }
    }
  }

  lemma {:induction false} QuoteNoSlash(s: Text)
    ensures NoSlash(Quote({}, s)) && (Quote({}, s) == [] <==> s == [])
  {
    if s != [] {
      QuoteNoSlash(s[1..]);
      assert SLASH !in QuoteByte({}, s[0]);
    }
  }

  lemma {:induction false} RouteNoSlash(parts: seq<Text>)
    ensures NoSlash(Joined(Quoted(parts)))
  {
    if parts != [] {
      QuoteNoSlash(parts[0]);
      if |parts| > 1 {
        assert Quoted(parts)[1..] == Quoted(parts[1..]);
        RouteNoSlash(parts[1..]);
      }
    }
  }

  lemma UnquoteBars(rest: Text)
    ensures Unquote([BAR, BAR] + rest) == [BAR, BAR] + Unquote(rest)
  {
    var s := [BAR, BAR] + rest;
    assert s[1..] == [BAR] + rest && s[1..][1..] == rest;
  }

  lemma UnquoteWhole(s: Text)
    ensures Unquote(Quote({}, s)) == s
  {
    UnquoteQuote(s, []);
    assert Quote({}, s) + [] == Quote({}, s) && s + Unquote([]) == s;
  }

  lemma JoinedStep(parts: seq<Text>)
    requires |parts| > 1
    ensures Joined(parts) == parts[0] + ([BAR, BAR] + Joined(parts[1..]))
  {
    assert parts[0] + ([BAR, BAR] + Joined(parts[1..])) == parts[0] + [BAR, BAR] + Joined(parts[1..]);
  }

  lemma QuotedStep(parts: seq<Text>)
    requires |parts| > 1
    ensures Joined(Quoted(parts)) == Quote({}, parts[0]) + ([BAR, BAR] + Joined(Quoted(parts[1..])))
  {
    hide Quote;
    JoinedStep(Quoted(parts));
    assert Quoted(parts)[1..] == Quoted(parts[1..]);
  }

  lemma OnePart(parts: seq<Text>)
    requires |parts| == 1
    ensures Joined(parts) == parts[0] && Joined(Quoted(parts)) == Quote({}, parts[0])
  {
    hide Quote;
  }

  lemma UnquoteStep(part: Text, rest: Text)
    ensures Unquote(Quote({}, part) + ([BAR, BAR] + rest)) == part + ([BAR, BAR] + Unquote(rest))
  {
    UnquoteQuote(part, [BAR, BAR] + rest);
    UnquoteBars(rest);
  }

  /** The decoded route is the join of the decoded parts. */
  lemma {:induction false} UnquoteRoute(parts: seq<Text>)
    ensures Unquote(Joined(Quoted(parts))) == Joined(parts)
    ensures Joined(Quoted(parts)) == [] <==> Joined(parts) == []
  {
    if |parts| == 1 {
      hide Unquote, Quote, Joined, Quoted;
      OnePart(parts);
      QuoteNoSlash(parts[0]);
      UnquoteWhole(parts[0]);
    } else if parts != [] {
      UnquoteRoute(parts[1..]);
      RouteStep(parts);
    }
  }

  lemma RouteStep(parts: seq<Text>)
    requires |parts| > 1 && Unquote(Joined(Quoted(parts[1..]))) == Joined(parts[1..])
    ensures Unquote(Joined(Quoted(parts))) == Joined(parts)
    ensures Joined(Quoted(parts)) != [] && Joined(parts) != []
  {
    hide Unquote, Quote, Joined, Quoted;
    JoinedStep(parts);
    QuotedStep(parts);
    UnquoteStep(parts[0], Joined(Quoted(parts[1..])));
  }

  lemma {:induction false} DecodedConcat(a: seq<Text>, b: seq<Text>)
    ensures Decoded(a + b) == Decoded(a) + Decoded(b)
  {
    if a == [] {
      assert a + b == b;
    } else {
      DecodedConcat(a[1..], b);
      assert (a + b)[1..] == a[1..] + b;
      assert Decoded(a + b) == [Unquote(a[0])] + Decoded((a + b)[1..]);
    }
  }

  lemma {:induction false} TokensConcat(a: seq<Text>, b: seq<Text>)
    ensures Tokens(a + b) == Tokens(a) + Tokens(b)
  {
    if a == [] {
      assert a + b == b;
    } else {
      TokensConcat(a[1..], b);
      assert (a + b)[1..] == a[1..] + b;
      Associate(NonEmpty(SplitBars(a[0])), Tokens(a[1..]), Tokens(b));
      hide NonEmpty, SplitBars;
    }
  }

  lemma Associate(a: seq<Text>, b: seq<Text>, c: seq<Text>)
    ensures a + (b + c) == (a + b) + c
  {
  }

  /** The tokens contributed by the segments of the web root. */
  function RootTokens(root: Text): seq<Text> {
    Tokens(Decoded(NonEmpty(SplitSlash(root))))
  }

  /** A token list for a route, which disappears when it is empty. */
  function RouteOf(db: Text, path: seq<Text>): seq<Text> {
    NonEmpty(SplitBars(Joined([db] + path)))
  }

  lemma PrintedSegments(root: Text, path: seq<Text>, tableId: Text)
    ensures var route := Joined([DatabaseId(root)] + path);
      Decoded(NonEmpty(SplitSlash(TableWebPath(root, path, tableId))))
      == Decoded(NonEmpty(SplitSlash(root))) + NonEmpty([route]) + NonEmpty([tableId])
  {
    var parts := [DatabaseId(root)] + path;
    var route, table := Joined(Quoted(parts)), Quote({}, tableId);
    SplitSlashConcat(root + [SLASH] + route + [SLASH] + table, []);
    SplitSlashConcat(root + [SLASH] + route, table);
    SplitSlashConcat(root, route);
    assert TableWebPath(root, path, tableId) == root + [SLASH] + route + [SLASH] + table + [SLASH] + [];
    RouteNoSlash(parts);
    SplitNoSlash(route);
    QuoteNoSlash(tableId);
    SplitNoSlash(table);
    NonEmptyConcat(SplitSlash(root) + [route] + [table], [[]]);
    NonEmptyConcat(SplitSlash(root) + [route], [table]);
    NonEmptyConcat(SplitSlash(root), [route]);
    var kept := NonEmpty(SplitSlash(root));
    DecodedConcat(kept + NonEmpty([route]), NonEmpty([table]));
    DecodedConcat(kept, NonEmpty([route]));
    UnquoteRoute(parts);
    UnquoteWhole(tableId);
    assert kept + NonEmpty([route]) + NonEmpty([table]) + NonEmpty([[]])
              == kept + NonEmpty([route]) + NonEmpty([table]);
    OneSegment(route, Joined(parts));
    OneSegment(table, tableId);
  }

  lemma OneSegment(raw: Text, decoded: Text)
    requires Unquote(raw) == decoded && (raw == [] <==> decoded == [])
    ensures Decoded(NonEmpty([raw])) == NonEmpty([decoded])
  {
    assert [raw][1..] == [] && [decoded][1..] == [];
  }

  /** What the parser sees in a printed path: the table id, and the tokens of root and route. */
  lemma PrintedTokens(root: Text, path: seq<Text>, tableId: Text, count: nat)
    requires tableId != []
    ensures var tokens := RootTokens(root) + RouteOf(DatabaseId(root), path);
      IdsFromPath(TableWebPath(root, path, tableId), count)
      == if count > |tokens| then None else Some(Ids(tableId, tokens[|tokens| - count..]))
  {
    hide SplitBars, Joined, SplitSlash, Decoded, Tokens, TableWebPath;
    var route := Joined([DatabaseId(root)] + path);
    var kept := Decoded(NonEmpty(SplitSlash(root)));
    PrintedSegments(root, path, tableId);
    var segments := Decoded(NonEmpty(SplitSlash(TableWebPath(root, path, tableId))));
    assert NonEmpty([tableId]) == [tableId];
    assert segments[..|segments| - 1] == kept + NonEmpty([route]);
    TokensConcat(kept, NonEmpty([route]));
    OneRoute(route);
  }

  lemma OneRoute(route: Text)
    ensures Tokens(NonEmpty([route])) == NonEmpty(SplitBars(route))
  {
    if route != [] {
      assert NonEmpty([route]) == [route];
      assert Tokens([route]) == NonEmpty(SplitBars(route)) + Tokens([]);
    } else {
      assert SplitBars(route) == [[]];
    }
  }

  /** A recoverable path is read back, from any web root. */
  lemma ReadsBack(root: Text, path: seq<Text>, tableId: Text)
    requires tableId != [] && Recoverable(DatabaseId(root), path)
    ensures IdsFromPath(TableWebPath(root, path, tableId), |path|) == Some(Ids(tableId, path))
  {
    hide TableWebPath, IdsFromPath, RootTokens, SplitBars, NonEmpty;
    var tokens := RootTokens(root) + RouteOf(DatabaseId(root), path);
    PrintedTokens(root, path, tableId, |path|);
    if path != [] {
      RouteTokens(DatabaseId(root), path);
    }
    assert tokens[|tokens| - |path|..] == path;
  }

  // ---- Only recoverable paths are read back --------------------------------------------------

  /** The number of bytes that are not underscores: splitting loses none of them. */
  function Weight(s: Text): nat {
    if s == [] then 0 else (if s[0] == BAR then 0 else 1) + Weight(s[1..])
  }

  function TotalWeight(parts: seq<Text>): nat {
    if parts == [] then 0 else Weight(parts[0]) + TotalWeight(parts[1..])
  }

  lemma {:induction false} WeightConcat(a: Text, b: Text)
    ensures Weight(a + b) == Weight(a) + Weight(b)
  {
    if a == [] {
      assert a + b == b;
    } else {
      WeightConcat(a[1..], b);
      assert (a + b)[1..] == a[1..] + b;
    }
  }

  lemma {:induction false} TotalWeightConcat(a: seq<Text>, b: seq<Text>)
    ensures TotalWeight(a + b) == TotalWeight(a) + TotalWeight(b)
  {
    if a == [] {
      assert a + b == b;
    } else {
      TotalWeightConcat(a[1..], b);
      assert (a + b)[1..] == a[1..] + b;
    }
  }

  lemma WeightPrepend(b: Byte, parts: seq<Text>)
    requires |parts| > 0
    ensures TotalWeight(Prepend(b, parts)) == (if b == BAR then 0 else 1) + TotalWeight(parts)
  {
    assert Prepend(b, parts)[1..] == parts[1..];
    assert ([b] + parts[0])[1..] == parts[0];
  }

  lemma {:induction false} WeightSplit(s: Text)
    ensures TotalWeight(NonEmpty(SplitBars(s))) == Weight(s)
  {
    NonEmptyWeight(SplitBars(s));
    SplitWeight(s);
  }

  lemma {:induction false} SplitWeight(s: Text)
    ensures TotalWeight(SplitBars(s)) == Weight(s)
  {
    if |s| < 2 {
      assert [s][1..] == [];
    } else if s[0] == BAR && s[1] == BAR {
      SplitWeight(s[2..]);
      assert ([[]] + SplitBars(s[2..]))[1..] == SplitBars(s[2..]);
      assert s[1..][1..] == s[2..];
    } else {
      SplitWeight(s[1..]);
      WeightPrepend(s[0], SplitBars(s[1..]));
    }
  }

  lemma {:induction false} NonEmptyWeight(parts: seq<Text>)
    ensures TotalWeight(NonEmpty(parts)) == TotalWeight(parts)
  {
    if parts != [] {
      NonEmptyWeight(parts[1..]);
      if parts[0] != [] {
        assert NonEmpty(parts)[1..] == NonEmpty(parts[1..]);
      } else {
        assert NonEmpty(parts) == NonEmpty(parts[1..]);
      }
    }
  }

  lemma {:induction false} WeightJoined(parts: seq<Text>)
    ensures Weight(Joined(parts)) == TotalWeight(parts)
  {
    if |parts| == 1 {
      assert parts[1..] == [];
      assert TotalWeight(parts) == Weight(parts[0]) + TotalWeight(parts[1..]);
    } else if |parts| > 1 {
      WeightJoined(parts[1..]);
      WeightConcat(parts[0] + [BAR, BAR], Joined(parts[1..]));
      WeightConcat(parts[0], [BAR, BAR]);
      assert Weight([BAR, BAR]) == Weight([BAR, BAR][1..]) && [BAR, BAR][1..] == [BAR];
      assert Weight([BAR]) == Weight([BAR][1..]) && [BAR][1..] == [];
    }
  }

  /** A token is not empty and contains no separator. */
  ghost predicate Token(s: Text) { s != [] && NoSeparator(s) }

  lemma {:induction false} PiecesNoSeparator(s: Text, i: nat)
    requires i < |SplitBars(s)|
    ensures NoSeparator(SplitBars(s)[i])
    ensures i == 0 && SplitBars(s)[0] != [] ==> s != [] && SplitBars(s)[0][0] == s[0]
    ensures i == 0 && |SplitBars(s)[0]| > 1 ==> |s| > 1 && SplitBars(s)[0][1] == s[1]
  {
    if |s| >= 2 {
      if s[0] == BAR && s[1] == BAR {
        if i > 0 {
          PiecesNoSeparator(s[2..], i - 1);
        }
      } else {
        var rest := SplitBars(s[1..]);
        PiecesNoSeparator(s[1..], i);
        if i == 0 && rest[0] != [] {
          var piece := [s[0]] + rest[0];
          assert piece[0] == s[0] && piece[1] == s[1];
          forall k | 0 <= k < |piece| - 1
            ensures !(piece[k] == BAR && piece[k + 1] == BAR)
          {
            if k > 0 {
              assert piece[k] == rest[0][k - 1] && piece[k + 1] == rest[0][k - 1 + 1];
            }
          }
        }
      }
    }
  }

  lemma {:induction false} NonEmptyTokens(parts: seq<Text>, k: nat)
    requires forall i :: 0 <= i < |parts| ==> NoSeparator(parts[i])
    requires k < |NonEmpty(parts)|
    ensures Token(NonEmpty(parts)[k])
  {
    if parts[0] == [] {
      NonEmptyTokens(parts[1..], k);
    } else if k > 0 {
      NonEmptyTokens(parts[1..], k - 1);
    }
  }

  lemma {:induction false} AllTokens(segments: seq<Text>, k: nat)
    requires k < |Tokens(segments)|
    ensures Token(Tokens(segments)[k])
  {
    var first := NonEmpty(SplitBars(segments[0]));
    if k < |first| {
      forall i | 0 <= i < |SplitBars(segments[0])|
        ensures NoSeparator(SplitBars(segments[0])[i])
      {
        PiecesNoSeparator(segments[0], i);
      }
      NonEmptyTokens(SplitBars(segments[0]), k);
    } else {
      AllTokens(segments[1..], k - |first|);
    }
  }

  predicate EndsInBar(s: Text) { s != [] && s[|s| - 1] == BAR }

  /** Greedy splitting never leaves an underscore in front of a separator. */
  lemma {:induction false} PiecesEnd(s: Text, i: nat)
    requires i < |SplitBars(s)| - 1
    ensures !EndsInBar(SplitBars(s)[i])
  {
    if s[0] == BAR && s[1] == BAR {
      if i > 0 {
        PiecesEnd(s[2..], i - 1);
      }
    } else {
      PiecesEnd(s[1..], i);
      if i == 0 {
        FirstPiece(s);
      }
    }
  }

  /** The first piece of several is followed by a separator, and a single byte before one is no underscore. */
  lemma FirstPiece(s: Text)
    requires |s| >= 2 && !(s[0] == BAR && s[1] == BAR) && |SplitBars(s)| > 1
    requires !EndsInBar(SplitBars(s[1..])[0])
    ensures !EndsInBar(SplitBars(s)[0])
  {
    var rest := SplitBars(s[1..]);
    if rest[0] == [] && |s| >= 3 {
      assert s[1..][0] == BAR;
    }
  }

  lemma {:induction false} NonEmptyEnds(parts: seq<Text>, k: nat)
    requires forall i :: 0 <= i < |parts| - 1 ==> !EndsInBar(parts[i])
    requires k < |NonEmpty(parts)| - 1
    ensures !EndsInBar(NonEmpty(parts)[k])
  {
    if parts[0] == [] {
      NonEmptyEnds(parts[1..], k);
    } else if k > 0 {
      NonEmptyEnds(parts[1..], k - 1);
    } else {
      assert |parts| > 1;
    }
  }

  lemma {:induction false} UncleanShape(a: Text)
    requires !Clean(a)
    ensures a != [] && a[|a| - 1] == BAR && Clean(a[..|a| - 1])
  {
    if |a| >= 2 {
      if a[0] == BAR && a[1] == BAR {
        UncleanShape(a[2..]);
        assert a[..|a| - 1][2..] == a[2..][..|a| - 3];
      } else {
        UncleanShape(a[1..]);
        assert a[..|a| - 1][1..] == a[1..][..|a| - 2];
      }
    }
  }

  /** Parts that were meant to follow a separator, but whose first one lost or gained an underscore. */
  lemma ShiftedTokens(front: Text, head: Text, path: seq<Text>, s: Text)
    requires Clean(front) && path != [] && NoSeparator(head)
    requires forall i :: 0 <= i < |path| ==> Token(path[i])
    requires forall i :: 0 <= i < |path| - 1 ==> !EndsInBar(path[i])
    requires |path| > 1 ==> !EndsInBar(head) && head != []
    requires s == Joined([head] + path[1..])
    ensures SplitBars(s) == [head] + path[1..]
    ensures NonEmpty(SplitBars(s)) == NonEmpty([head]) + path[1..]
  {
    var parts := [head] + path[1..];
    forall i | 0 <= i < |parts| - 1
      ensures Clean(parts[i])
    {
      CleanNoSeparator(parts[i]);
    }
    SplitJoined(parts);
    NonEmptyConcat([head], path[1..]);
    NonEmptyKeeps(path[1..]);
  }

  lemma JoinedHead(parts: seq<Text>, b: Text, head: Text)
    requires parts != [] && head == b + parts[0]
    ensures b + Joined(parts) == Joined([head] + parts[1..])
  {
    if |parts| > 1 {
      assert ([head] + parts[1..])[1..] == parts[1..];
      assert b + (parts[0] + [BAR, BAR] + Joined(parts[1..])) == head + [BAR, BAR] + Joined(parts[1..]);
    }
  }

  lemma NoEndInFront(front: Text, rest: Text, k: nat)
    requires Clean(front) && k < |NonEmpty(SplitBars(front))|
    ensures !EndsInBar(NonEmpty(SplitBars(front))[k])
  {
    var parts := SplitBars(front);
    SplitClean(front, rest);
    var whole := front + [BAR, BAR] + rest;
    forall i | 0 <= i < |parts|
      ensures !EndsInBar(parts[i])
    {
      PiecesEnd(whole, i);
      assert SplitBars(whole)[i] == parts[i];
    }
    var more := parts + [[65]];
    NonEmptyConcat(parts, [[65]]);
    assert NonEmpty([[65]]) == [[65]] by { assert [[65]] == [[65]] + NonEmpty([]); }
    NonEmptyEnds(more, k);
  }

  /** The whole route when the database id leaves one underscore over. */
  lemma UncleanSplit(a: Text, path: seq<Text>)
    requires !Clean(a) && path != []
    ensures a != [] && Clean(a[..|a| - 1])
    ensures RouteOf(a, path) == NonEmpty(SplitBars(a[..|a| - 1])) + NonEmpty(SplitBars([BAR] + Joined(path)))
  {
    UncleanShape(a);
    var front := a[..|a| - 1];
    assert ([a] + path)[1..] == path;
    assert a == front + [BAR];
    assert Joined([a] + path) == front + [BAR, BAR] + ([BAR] + Joined(path));
    SplitClean(front, [BAR] + Joined(path));
    NonEmptyConcat(SplitBars(front), SplitBars([BAR] + Joined(path)));
  }

  /** The leftover underscore sticks to a first component that does not start with one. */
  lemma MisreadWithBar(a: Text, path: seq<Text>)
    requires !Clean(a) && path != [] && path[0] != [] && path[0][0] != BAR
    requires forall i :: 0 <= i < |path| ==> Token(path[i])
    requires forall i :: 0 <= i < |path| - 1 ==> !EndsInBar(path[i])
    ensures var route := RouteOf(a, path); |route| >= |path| && route[|route| - |path|..] != path
  {
    hide SplitBars, Clean, Joined, RouteOf;
    UncleanSplit(a, path);
    var front, head := a[..|a| - 1], [BAR] + path[0];
    assert NoSeparator(head) && !EndsInBar(head) == !EndsInBar(path[0]);
    JoinedHead(path, [BAR], head);
    ShiftedTokens(front, head, path, [BAR] + Joined(path));
    LastOnes(NonEmpty(SplitBars(front)), head, path);
  }

  lemma LastOnes(before: seq<Text>, head: Text, path: seq<Text>)
    requires path != [] && head != [] && head != path[0]
    ensures var route := before + (NonEmpty([head]) + path[1..]);
      |route| >= |path| && route[|route| - |path|..] != path
  {
    assert NonEmpty([head]) == [head];
    var route := before + ([head] + path[1..]);
    assert route[|route| - |path|..][0] == head;
  }

  lemma SplitSeparator(s: Text)
    ensures NonEmpty(SplitBars([BAR, BAR] + s)) == NonEmpty(SplitBars(s))
  {
    assert ([BAR, BAR] + s)[2..] == s;
    NonEmptyConcat([[]], SplitBars(s));
    assert NonEmpty([[]]) == [];
  }

  /** A component without its first underscore. */
  lemma TailOf(part: Text)
    requires Token(part) && part[0] == BAR
    ensures NoSeparator(part[1..])
    ensures !EndsInBar(part) ==> part[1..] != [] && !EndsInBar(part[1..])
  {
    assert forall i :: 0 <= i < |part[1..]| ==> part[1..][i] == part[i + 1];
  }

  lemma BarJoined(path: seq<Text>)
    requires path != [] && path[0] != [] && path[0][0] == BAR
    ensures [BAR] + Joined(path) == [BAR, BAR] + Joined([path[0][1..]] + path[1..])
  {
    hide Joined;
    var head := path[0][1..];
    JoinedHead([head] + path[1..], [BAR], path[0]);
    assert ([head] + path[1..])[1..] == path[1..] && [path[0]] + path[1..] == path;
    assert [BAR] + ([BAR] + Joined([head] + path[1..])) == [BAR, BAR] + Joined([head] + path[1..]);
  }

  /** The route behind a leftover underscore that completes a separator. */
  lemma WithoutBarRoute(a: Text, path: seq<Text>)
    requires !Clean(a) && path != [] && path[0] != [] && path[0][0] == BAR
    requires forall i :: 0 <= i < |path| ==> Token(path[i])
    requires forall i :: 0 <= i < |path| - 1 ==> !EndsInBar(path[i])
    ensures a != [] && Clean(a[..|a| - 1])
    ensures RouteOf(a, path) == NonEmpty(SplitBars(a[..|a| - 1])) + (NonEmpty([path[0][1..]]) + path[1..])
  {
    hide SplitBars, Clean, Joined, RouteOf, NonEmpty, Token, EndsInBar, NoSeparator;
    UncleanSplit(a, path);
    BarJoined(path);
    TailOf(path[0]);
    SplitSeparator(Joined([path[0][1..]] + path[1..]));
    ShiftedTokens(a[..|a| - 1], path[0][1..], path, Joined([path[0][1..]] + path[1..]));
  }

  /** With its own first underscore it makes up a separator, and the component loses it. */
  lemma MisreadWithoutBar(a: Text, path: seq<Text>)
    requires !Clean(a) && path != [] && path[0] != [] && path[0][0] == BAR
    requires forall i :: 0 <= i < |path| ==> Token(path[i])
    requires forall i :: 0 <= i < |path| - 1 ==> !EndsInBar(path[i])
    ensures var route := RouteOf(a, path); |route| >= |path| ==> route[|route| - |path|..] != path
  {
    WithoutBarRoute(a, path);
    BarOnly(path[0]);
    hide SplitBars, Clean, Joined, RouteOf, Token, NonEmpty;
    var front, head := a[..|a| - 1], path[0][1..];
    if head != [] {
      LastOnes(NonEmpty(SplitBars(front)), head, path);
    } else {
      EmptyHeadLost(front, path);
    }
  }

  /** A component that is nothing but its first underscore ends in one. */
  lemma BarOnly(part: Text)
    ensures part != [] && part[0] == BAR && part[1..] == [] ==> EndsInBar(part)
  {
  }

  /** The only component was an underscore that is gone: what stands at the end of the route has none. */
  lemma EmptyHeadLost(front: Text, path: seq<Text>)
    requires Clean(front) && |path| == 1 && EndsInBar(path[0])
    ensures var route := NonEmpty(SplitBars(front)) + (NonEmpty([[]]) + path[1..]);
      |route| >= |path| ==> route[|route| - |path|..] != path
  {
    hide SplitBars, Clean;
    var tokens := NonEmpty(SplitBars(front));
    assert NonEmpty([[]]) == [] && tokens + ([] + path[1..]) == tokens;
    if |tokens| >= 1 {
      NoEndInFront(front, [], |tokens| - 1);
      assert tokens[|tokens| - 1..][0] == tokens[|tokens| - 1];
    }
  }

  lemma RouteToken(db: Text, path: seq<Text>, k: nat)
    requires k < |RouteOf(db, path)|
    ensures Token(RouteOf(db, path)[k])
  {
    var parts := SplitBars(Joined([db] + path));
    forall i | 0 <= i < |parts|
      ensures NoSeparator(parts[i])
    {
      PiecesNoSeparator(Joined([db] + path), i);
    }
    NonEmptyTokens(parts, k);
  }

  lemma RouteEnd(db: Text, path: seq<Text>, k: nat)
    requires k < |RouteOf(db, path)| - 1
    ensures !EndsInBar(RouteOf(db, path)[k])
  {
    var parts := SplitBars(Joined([db] + path));
    forall i | 0 <= i < |parts| - 1
      ensures !EndsInBar(parts[i])
    {
      PiecesEnd(Joined([db] + path), i);
    }
    NonEmptyEnds(parts, k);
  }

  // ---- Database ids of underscores only ---------------------------------------------------------

  predicate OnlyBars(s: Text) { forall i :: 0 <= i < |s| ==> s[i] == BAR }

  lemma {:induction false} WeightlessIff(s: Text)
    ensures Weight(s) == 0 <==> OnlyBars(s)
  {
    if s != [] {
      WeightlessIff(s[1..]);
      assert s == [s[0]] + s[1..];
    }
  }

  /** A run of underscores splits into nothing, or into one underscore, by its parity. */
  lemma {:induction false} OnlyBarsSplit(s: Text)
    requires OnlyBars(s)
    ensures Clean(s) <==> |s| % 2 == 0
    ensures NonEmpty(SplitBars(s)) == if |s| % 2 == 0 then [] else [[BAR]]
  {
    if |s| < 2 {
      assert SplitBars(s)[1..] == [];
      assert |s| == 1 ==> s == [BAR];
    } else {
      OnlyBarsSplit(s[2..]);
      assert SplitBars(s)[1..] == SplitBars(s[2..]);
    }
  }

  lemma WeightlessToken(s: Text)
    requires Token(s) && Weight(s) == 0
    ensures s == [BAR]
  {
    WeightlessIff(s);
    assert s[0] == BAR;
  }

  lemma {:induction false} WeightlessParts(parts: seq<Text>, i: nat)
    requires TotalWeight(parts) == 0 && i < |parts|
    ensures Weight(parts[i]) == 0
  {
    if i > 0 {
      WeightlessParts(parts[1..], i - 1);
    }
  }

  predicate BarParts(parts: seq<Text>) { forall i :: 0 <= i < |parts| ==> parts[i] == [BAR] }

  lemma {:induction false} JoinedBars(parts: seq<Text>)
    requires parts != [] && BarParts(parts)
    ensures OnlyBars(Joined(parts)) && |Joined(parts)| == 3 * |parts| - 2
  {
    if |parts| > 1 {
      JoinedBars(parts[1..]);
    }
  }

  /** A database id of underscores, followed by components that are one underscore each. */
  lemma JoinedFront(db: Text, bars: seq<Text>)
    requires OnlyBars(db) && BarParts(bars)
    ensures OnlyBars(Joined([db] + bars)) && |Joined([db] + bars)| == |db| + 3 * |bars|
  {
    if bars == [] {
      assert [db] + bars == [db];
    } else {
      assert ([db] + bars)[1..] == bars;
      JoinedBars(bars);
    }
  }

  lemma {:induction false} JoinedInParts(a: seq<Text>, b: seq<Text>)
    requires a != []
    ensures Joined(a + b) == Joined([Joined(a)] + b)
  {
    if |a| == 1 {
      assert [Joined(a)] == a;
    } else {
      JoinedInParts(a[1..], b);
      JoinedStep(a);
      JoinedStep(a + b);
      assert (a + b)[1..] == a[1..] + b;
      if b == [] {
        assert a + b == a && [Joined(a)] + b == [Joined(a)];
      } else {
        JoinedStep([Joined(a)] + b);
        JoinedStep([Joined(a[1..])] + b);
        assert ([Joined(a)] + b)[1..] == b == ([Joined(a[1..])] + b)[1..];
        var x, y, z := a[0], Joined(a[1..]), [BAR, BAR] + Joined(b);
        assert x + ([BAR, BAR] + (y + z)) == (x + ([BAR, BAR] + y)) + z;
      }
    }
  }

  /** The route may as well be read as starting behind some of the components. */
  lemma RouteFrom(db: Text, path: seq<Text>, k: nat)
    requires k <= |path|
    ensures RouteOf(db, path) == RouteOf(Joined([db] + path[..k]), path[k..])
  {
    assert [db] + path == ([db] + path[..k]) + path[k..];
    JoinedInParts([db] + path[..k], path[k..]);
  }

  /** Components that are read back behind a clean front. */
  ghost predicate Components(path: seq<Text>) {
    && (forall i :: 0 <= i < |path| ==> path[i] != [] && NoSeparator(path[i]))
    && (forall i :: 0 <= i < |path| - 1 ==> path[i][|path[i]| - 1] != BAR)
  }

  /**
   The other way to read a path back: the database id is a run of underscores, the first `k`
   components are single underscores that vanish in the route, and the web root happens to end in
   `k` tokens of the same kind.
   */
  ghost predicate Borrowed(root: Text, path: seq<Text>, k: nat) {
    var db, tokens := DatabaseId(root), RootTokens(root);
    && 0 < k <= |path| && k <= |tokens|
    && OnlyBars(db) && (|db| + k) % 2 == 0
    && BarParts(path[..k]) && BarParts(tokens[|tokens| - k..])
    && Components(path[k..])
  }

  lemma BorrowedRoute(db: Text, path: seq<Text>, k: nat)
    requires 0 < k <= |path| && OnlyBars(db) && (|db| + k) % 2 == 0
    requires BarParts(path[..k]) && Components(path[k..])
    ensures RouteOf(db, path) == path[k..]
  {
    hide NoSeparator, SplitBars, Clean;
    var front, rest := Joined([db] + path[..k]), path[k..];
    RouteFrom(db, path, k);
    JoinedFront(db, path[..k]);
    OnlyBarsSplit(front);
    if rest == [] {
      assert [front] + rest == [front];
    } else {
      RouteTokens(front, rest);
    }
  }

  lemma SuffixJoins(tokens: seq<Text>, path: seq<Text>, k: nat)
    requires k <= |tokens| && k <= |path| && tokens[|tokens| - k..] == path[..k]
    ensures var all := tokens + path[k..]; all[|all| - |path|..] == path
  {
    var all := tokens + path[k..];
    assert all[|all| - |path|..] == tokens[|tokens| - k..] + path[k..];
  }

  lemma BorrowedReadsBack(root: Text, path: seq<Text>, tableId: Text, k: nat)
    requires tableId != [] && Borrowed(root, path, k)
    ensures IdsFromPath(TableWebPath(root, path, tableId), |path|) == Some(Ids(tableId, path))
  {
    hide RouteOf, RootTokens, DatabaseId, TableWebPath, IdsFromPath, Components, OnlyBars;
    var db, tokens := DatabaseId(root), RootTokens(root);
    BorrowedRoute(db, path, k);
    PrintedTokens(root, path, tableId, |path|);
    assert tokens[|tokens| - k..] == path[..k];
    SuffixJoins(tokens, path, k);
  }

  /** The tokens at the end of a route are components that can be read back, behind a clean front. */
  lemma RouteSuffix(db: Text, path: seq<Text>, front: Text, rest: seq<Text>)
    requires RouteOf(db, path) == RouteOf(front, rest)
    requires var route := RouteOf(db, path); |rest| <= |route| && route[|route| - |rest|..] == rest
    ensures Components(rest) && (rest != [] ==> Clean(front))
  {
    hide RouteOf, NoSeparator, Clean;
    var route := RouteOf(db, path);
    var from := |route| - |rest|;
    forall i | 0 <= i < |rest|
      ensures rest[i] == route[from + i] && Token(rest[i]) && (i < |rest| - 1 ==> !EndsInBar(rest[i]))
    {
      assert rest[i] == route[from..][i];
      RouteToken(db, path, from + i);
      if i < |rest| - 1 {
        RouteEnd(db, path, from + i);
      }
    }
    if rest != [] && !Clean(front) {
      if rest[0][0] == BAR {
        MisreadWithoutBar(front, rest);
      } else {
        MisreadWithBar(front, rest);
      }
    }
  }

  /** A path that reaches into the tokens of the root borrows single underscores there. */
  lemma BorrowsBars(root: Text, path: seq<Text>, k: nat)
    requires var tokens, route := RootTokens(root), RouteOf(DatabaseId(root), path);
             0 < k <= |tokens| && k + |route| == |path| && path == tokens[|tokens| - k..] + route
    ensures OnlyBars(DatabaseId(root)) && BarParts(path[..k]) && BarParts(RootTokens(root)[|RootTokens(root)| - k..])
    ensures RouteOf(DatabaseId(root), path) == path[k..]
  {
    var db, tokens := DatabaseId(root), RootTokens(root);
    var borrowed, route := tokens[|tokens| - k..], RouteOf(db, path);
    WeightSplit(Joined([db] + path));
    WeightJoined([db] + path);
    assert ([db] + path)[1..] == path;
    TotalWeightConcat(borrowed, route);
    WeightlessIff(db);
    hide RouteOf, Token;
    forall i | 0 <= i < |borrowed| ensures borrowed[i] == [BAR] {
      WeightlessParts(borrowed, i);
      AllTokens(Decoded(NonEmpty(SplitSlash(root))), |tokens| - k + i);
      WeightlessToken(borrowed[i]);
    }
    assert path[..k] == borrowed;
  }

  lemma RouteOfNothing(front: Text)
    ensures RouteOf(front, []) == NonEmpty(SplitBars(front))
  {
    assert [front] + [] == [front];
  }

  lemma BorrowedParity(db: Text, path: seq<Text>, k: nat)
    requires 0 < k <= |path| && OnlyBars(db) && BarParts(path[..k])
    requires RouteOf(db, path) == path[k..]
    ensures (|db| + k) % 2 == 0 && Components(path[k..])
  {
    hide RouteOf, SplitBars, NonEmpty, Clean, Components, Joined;
    var front, rest := Joined([db] + path[..k]), path[k..];
    RouteFrom(db, path, k);
    JoinedFront(db, path[..k]);
    OnlyBarsSplit(front);
    assert rest[0..] == rest;
    RouteSuffix(db, path, front, rest);
    if rest == [] {
      RouteOfNothing(front);
    }
  }

  /** Nothing else is read back, from any web root. */
  lemma OnlyRecoverable(root: Text, path: seq<Text>, tableId: Text)
    requires tableId != []
    requires IdsFromPath(TableWebPath(root, path, tableId), |path|) == Some(Ids(tableId, path))
    ensures Recoverable(DatabaseId(root), path) || exists k :: Borrowed(root, path, k)
  {
    hide RouteOf, RootTokens, TableWebPath, IdsFromPath, Recoverable, Borrowed;
    var route, tokens := RouteOf(DatabaseId(root), path), RootTokens(root);
    PrintedTokens(root, path, tableId, |path|);
    var all := tokens + route;
    assert all[|all| - |path|..] == path;
    if |route| >= |path| {
      assert route[|route| - |path|..] == path;
      OwnTokensOnly(DatabaseId(root), path);
    } else {
      var k := |path| - |route|;
      assert path == tokens[|tokens| - k..] + route;
      BorrowedTokens(root, path, k);
    }
  }

  /** A path found in its own route is recoverable. */
  lemma OwnTokensOnly(db: Text, path: seq<Text>)
    requires var route := RouteOf(db, path); |path| <= |route| && route[|route| - |path|..] == path
    ensures Recoverable(db, path)
  {
    hide RouteOf, NoSeparator, Clean;
    RouteSuffix(db, path, db, path);
  }

  lemma BorrowedTokens(root: Text, path: seq<Text>, k: nat)
    requires var tokens, route := RootTokens(root), RouteOf(DatabaseId(root), path);
             0 < k <= |tokens| && k + |route| == |path| && path == tokens[|tokens| - k..] + route
    ensures Borrowed(root, path, k)
  {
    hide RouteOf, RootTokens, DatabaseId, OnlyBars, BarParts, Components;
    BorrowsBars(root, path, k);
    BorrowedParity(DatabaseId(root), path, k);
  }

  /**
   The round trip of table URLs, exactly, for every web root: the parser returns the printed table
   id and path if and only if the table id is not empty and the path is recoverable (the components
   are not empty and contain no "__", only the last one ends in "_", and the database id ends in an
   even run of underscores), or its leading underscores are borrowed from the web root.
   */
  lemma TableUrlRoundTrip(root: Text, path: seq<Text>, tableId: Text)
    ensures IdsFromPath(TableWebPath(root, path, tableId), |path|) == Some(Ids(tableId, path))
            <==> tableId != [] && (Recoverable(DatabaseId(root), path) || exists k :: Borrowed(root, path, k))
  {
    hide Recoverable, Borrowed, IdsFromPath, TableWebPath;
    if tableId == [] {
      EmptyIdMisreads(root, path);
    } else if Recoverable(DatabaseId(root), path) {
      ReadsBack(root, path, tableId);
    } else if exists k :: Borrowed(root, path, k) {
      var k :| Borrowed(root, path, k);
      BorrowedReadsBack(root, path, tableId, k);
    } else if IdsFromPath(TableWebPath(root, path, tableId), |path|) == Some(Ids(tableId, path)) {
      OnlyRecoverable(root, path, tableId);
    }
  }

  lemma {:induction false} UnquoteNotEmpty(s: Text)
    requires s != []
    ensures Unquote(s) != []
  {
  }

  lemma {:induction false} DecodedNotEmpty(parts: seq<Text>, i: nat)
    requires i < |Decoded(NonEmpty(parts))|
    ensures Decoded(NonEmpty(parts))[i] != []
  {
    if parts[0] == [] {
      assert NonEmpty(parts) == NonEmpty(parts[1..]);
      DecodedNotEmpty(parts[1..], i);
    } else {
      UnquoteNotEmpty(parts[0]);
      assert NonEmpty(parts)[1..] == NonEmpty(parts[1..]);
      if i > 0 {
        DecodedNotEmpty(parts[1..], i - 1);
      }
    }
  }

  /** Without a table id another segment is taken for one. */
  lemma EmptyIdMisreads(root: Text, path: seq<Text>)
    ensures IdsFromPath(TableWebPath(root, path, []), |path|) != Some(Ids([], path))
  {
    var parts := SplitSlash(TableWebPath(root, path, []));
    var segments := Decoded(NonEmpty(parts));
    if segments != [] {
      DecodedNotEmpty(parts, |segments| - 1);
    }
    hide SplitSlash, Decoded, NonEmpty, Tokens, TableWebPath;
  }

  function TrailingBars(s: Text): nat {
    if s == [] || s[|s| - 1] != BAR then 0 else 1 + TrailingBars(s[..|s| - 1])
  }

  lemma {:induction false} TrailingBarsFront(b: Byte, s: Text)
    ensures TrailingBars(s) <= |s|
    ensures TrailingBars([b] + s) == if TrailingBars(s) == |s| && b == BAR then |s| + 1 else TrailingBars(s)
  {
    var whole := [b] + s;
    if s == [] {
      assert whole[..0] == [];
    } else {
      TrailingBarsFront(b, s[..|s| - 1]);
      assert whole[..|s|] == [b] + s[..|s| - 1];
    }
  }

  /** `Clean` is what a reader can check on the id: its trailing run of underscores is even. */
  lemma {:induction false} CleanIsEvenRun(s: Text)
    ensures Clean(s) <==> TrailingBars(s) % 2 == 0
  {
    if |s| == 1 {
      assert s[..0] == [];
    } else if |s| >= 2 {
      TrailingBarsFront(s[0], s[1..]);
      assert s == [s[0]] + s[1..];
      if s[0] == BAR && s[1] == BAR {
        TrailingBarsFront(s[1], s[2..]);
        assert s[1..] == [s[1]] + s[2..];
        CleanIsEvenRun(s[2..]);
      } else {
        CleanIsEvenRun(s[1..]);
        if s[0] == BAR && TrailingBars(s[1..]) == |s[1..]| {
          AllBars(s[1..]);
        }
      }
    }
  }

  lemma {:induction false} AllBars(s: Text)
    requires s != [] && TrailingBars(s) == |s|
    ensures s[0] == BAR
  {
    if |s| > 1 {
      AllBars(s[..|s| - 1]);
    }
  }

  // ---- Percent coding, byte by byte ---------------------------------------------------------------

  /** An upper-case hexadecimal digit and its value. */
  predicate HexUpper(b: Byte, value: int) {
    (48 <= b <= 57 && value == b - 48) || (65 <= b <= 70 && value == b - 55)
  }

  /** A letter, a digit, or one of the four marks, in section 2.3 of RFC 3986. */
  predicate IsUnreserved(b: Byte) {
    65 <= b <= 90 || 97 <= b <= 122 || 48 <= b <= 57 || b in {45, 46, 95, 126}
  }

  /** A byte is kept if it is unreserved or safe, and otherwise written as its two upper-case digits. */
  lemma QuotedByte(safe: set<Byte>, b: Byte)
    ensures var q := Quote(safe, [b]);
      if IsUnreserved(b) || b in safe then q == [b]
      else
        && |q| == 3 && q[0] == 37
        && exists high, low :: HexUpper(q[1], high) && HexUpper(q[2], low) && b == 16 * high + low
  {
    assert [b][1..] == [];
    var q := QuoteByte(safe, b);
    assert Quote(safe, [b]) == q + [] == q;
    if |q| == 3 {
      assert HexUpper(q[1], b / 16) && HexUpper(q[2], b % 16);
    }
  }

  /** A text is encoded byte by byte. */
  lemma {:induction false} QuotedInParts(safe: set<Byte>, s: Text, i: nat)
    requires i < |s|
    ensures Quote(safe, s) == Quote(safe, s[..i]) + Quote(safe, [s[i]]) + Quote(safe, s[i + 1..])
  {
    QuoteConcat(safe, s[..i], [s[i]]);
    QuoteConcat(safe, s[..i + 1], s[i + 1..]);
    assert s[..i] + [s[i]] == s[..i + 1] && s[..i + 1] + s[i + 1..] == s;
  }

  /** A hexadecimal digit of either case and its value. */
  predicate HexAny(b: Byte, value: int) { HexUpper(b, value) || (97 <= b <= 102 && value == b - 87) }

  /** An escape of digits in either case is decoded to its byte. */
  lemma DecodedEscape(x: Byte, y: Byte, high: int, low: int, rest: Text)
    requires HexAny(x, high) && HexAny(y, low)
    ensures 0 <= 16 * high + low < 256
    ensures Unquote([37, x, y] + rest) == [(16 * high + low) as Byte] + Unquote(rest)
  {
    var s := [37, x, y] + rest;
    assert Escape(s) && s[3..] == rest;
  }

  /** Anything else is left as it is. */
  lemma DecodedOther(s: Text)
    requires s != []
    requires forall high, low :: !(|s| >= 3 && s[0] == 37 && HexAny(s[1], high) && HexAny(s[2], low))
    ensures Unquote(s) == [s[0]] + Unquote(s[1..])
  {
    if Escape(s) {
      assert HexAny(s[1], HexValue(s[1]).value) && HexAny(s[2], HexValue(s[2]).value);
    }
  }
}
