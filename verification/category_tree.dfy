/**
 The event-driven parser of the PXWeb category tree (`_CategoryTreeParser` in
 pxweb_v1/catalog.py): a stack machine over tag events, and the recursive walk it refines.
 */
module CategoryTree {
  import opened Common

  datatype Kind = Root | Parent | Leaf

  /** A classified `li`; an absent href reads as the empty string, which is treated alike. */
  datatype Node = Node(kind: Kind, text: string, href: string)

  datatype Ids = Ids(tableId: string, categoryIds: seq<string>)

  datatype WebTable = WebTable(ids: Ids, categoryNames: seq<string>, title: string, href: string)

  /** `_clean_text` and `_ids_from_href`, the latter failing on a link without enough parts. */
  datatype Reader = Reader(clean: string -> string, ids: (string, nat) -> Option<Ids>)

  datatype Event =
    | OpenLi(classes: set<string>)
    | OpenA(href: string)
    | CloseLi
    | Data(text: string)
    | OtherTag

  datatype State = State(nodes: seq<Option<Node>>, tables: seq<WebTable>)

  function KindOf(classes: set<string>): Option<Kind> {
    if "AspNet-TreeView-Root" in classes then Some(Root)
    else if "AspNet-TreeView-Parent" in classes then Some(Parent)
    else if "AspNet-TreeView-Leaf" in classes then Some(Leaf)
    else None
  }

  function NewNode(classes: set<string>): Option<Node> {
    match KindOf(classes)
    case Some(kind) => Some(Node(kind, "", ""))
    case None => None
  }

  predicate IsCategory(n: Option<Node>) { n.Some? && !n.value.kind.Leaf? }

  /** The texts read so far by the category nodes of the stack, outermost first. */
  function Labels(nodes: seq<Option<Node>>): seq<string> {
    if nodes == [] then []
    else
      Labels(nodes[..|nodes| - 1])
      + (if IsCategory(nodes[|nodes| - 1]) then [nodes[|nodes| - 1].value.text] else [])
  }

  function Cleaned(reader: Reader, labels: seq<string>): seq<string> {
    seq(|labels|, i requires 0 <= i < |labels| => reader.clean(labels[i]))
  }

  /** The tables a node contributes when its `li` closes; None when its link cannot be read. */
  function Closed(reader: Reader, node: Option<Node>, labels: seq<string>): Option<seq<WebTable>> {
    if node.None? || !node.value.kind.Leaf? || node.value.href == "" then Some([])
    else
      match reader.ids(node.value.href, |labels|)
      case None => None
      case Some(ids) => Some([WebTable(ids, Cleaned(reader, labels), reader.clean(node.value.text), node.value.href)])
  }

  /** One event, as the specification of the handlers; None when a handler raises. */
  function Step(reader: Reader, s: State, e: Event): Option<State> {
    var n := |s.nodes|;
    match e
    case OpenLi(classes) => Some(s.(nodes := s.nodes + [NewNode(classes)]))
    case OpenA(href) =>
      if n > 0 && s.nodes[n - 1].Some?
      then Some(s.(nodes := s.nodes[n - 1 := Some(s.nodes[n - 1].value.(href := href))]))
      else Some(s)
    case Data(text) =>
      if n > 0 && s.nodes[n - 1].Some?
      then Some(s.(nodes := s.nodes[n - 1 := Some(s.nodes[n - 1].value.(text := s.nodes[n - 1].value.text + text))]))
      else Some(s)
    case CloseLi =>
      if n == 0 then Some(s)
      else
        (match Closed(reader, s.nodes[n - 1], Labels(s.nodes[..n - 1]))
         case None => None
         case Some(tables) => Some(State(s.nodes[..n - 1], s.tables + tables)))
    case OtherTag => Some(s)
  }

  function Feed(reader: Reader, s: State, events: seq<Event>): Option<State>
    decreases |events|
  {
    if events == [] then Some(s)
    else
      match Step(reader, s, events[0])
      case None => None
      case Some(s') => Feed(reader, s', events[1..])
  }

  class CategoryTreeParser {
    const reader: Reader
    var tables: seq<WebTable>
    var nodes: seq<Option<Node>>

    ghost function View(): State
      reads this
    {
      State(nodes, tables)
    }

    constructor (reader: Reader)
      ensures View() == State([], []) && this.reader == reader
    {
      this.reader := reader;
      nodes, tables := [], [];
    }

    method HandleStartTag(li: bool, classes: set<string>, href: string)
      modifies this
      ensures Some(View()) == Step(reader, old(View()), if li then OpenLi(classes) else OpenA(href))
    {
      if li {
        var kind := KindOf(classes);
        nodes := nodes + [if kind.Some? then Some(Node(kind.value, "", "")) else None];
        return;
      }
      if |nodes| > 0 && nodes[|nodes| - 1].Some? {
        nodes := nodes[|nodes| - 1 := Some(nodes[|nodes| - 1].value.(href := href))];
      }
    }

    method HandleData(data: string)
      modifies this
      ensures Some(View()) == Step(reader, old(View()), Data(data))
    {
      if |nodes| > 0 && nodes[|nodes| - 1].Some? {
        nodes := nodes[|nodes| - 1 := Some(nodes[|nodes| - 1].value.(text := nodes[|nodes| - 1].value.text + data))];
      }
    }

    /** The labels of the category nodes left on the stack, collected front to back. */
    method Ancestors() returns (names: seq<string>)
      ensures names == Labels(nodes)
    {
      names := [];
      for i := 0 to |nodes|
        invariant names == Labels(nodes[..i])
      {
        assert nodes[..i + 1][..i] == nodes[..i];
        if nodes[i].Some? && !nodes[i].value.kind.Leaf? {
          names := names + [nodes[i].value.text];
        }
      }
      assert nodes[..|nodes|] == nodes;
    }

    method HandleEndTag() returns (ok: bool)
      modifies this
      ensures ok <==> Step(reader, old(View()), CloseLi).Some?
      ensures ok ==> Some(View()) == Step(reader, old(View()), CloseLi)
    {
      if |nodes| == 0 {
        return true;
      }
      var node := nodes[|nodes| - 1];
      nodes := nodes[..|nodes| - 1];
      if node.None? || !node.value.kind.Leaf? || node.value.href == "" {
        assert tables + [] == tables;
        return true;
      }
      var labels := Ancestors();
      var ids := reader.ids(node.value.href, |labels|);
      if ids.None? {
        return false;
      }
      tables := tables + [WebTable(ids.value, Cleaned(reader, labels), reader.clean(node.value.text), node.value.href)];
      return true;
    }

    method FeedEvents(events: seq<Event>) returns (ok: bool)
      modifies this
      ensures ok <==> Feed(reader, old(View()), events).Some?
      ensures ok ==> Some(View()) == Feed(reader, old(View()), events)
    {
      var i := 0;
      while i < |events|
        invariant 0 <= i <= |events|
        invariant Feed(reader, old(View()), events) == Feed(reader, View(), events[i..])
      {
        assert events[i..][1..] == events[i + 1..];
        match events[i] {
          case OpenLi(classes) => HandleStartTag(true, classes, "");
          case OpenA(href) => HandleStartTag(false, {}, href);
          case Data(text) => HandleData(text);
          case CloseLi =>
            var closed := HandleEndTag();
            if !closed {
              return false;
            }
          case OtherTag =>
        }
        i := i + 1;
      }
      return true;
    }
  }

  // ---- The recursive walk -----------------------------------------------------------------

  /** A well-nested document, as far as the parser distinguishes it. */
  datatype Item =
    | Text(text: string)
    | Anchor(href: string, body: seq<Item>)
    | Li(classes: set<string>, body: seq<Item>)
    | Markup(body: seq<Item>)            // any other element

  function Events(items: seq<Item>): seq<Event> {
    if items == [] then [] else ItemEvents(items[0]) + Events(items[1..])
  }

  function ItemEvents(item: Item): seq<Event> {
    match item
    case Text(text) => [Data(text)]
    case Anchor(href, body) => [OpenA(href)] + Events(body) + [OtherTag]
    case Li(classes, body) => [OpenLi(classes)] + Events(body) + [CloseLi]
    case Markup(body) => [OtherTag] + Events(body) + [OtherTag]
  }

  /** Where the walk stands: outside every `li`, or directly inside one. */
  datatype Place = Outside | Inside(node: Option<Node>)

  datatype Walked = Walked(place: Place, tables: seq<WebTable>)

  function Touch(place: Place, text: string, href: Option<string>): Place {
    if place.Inside? && place.node.Some?
    then Inside(Some(Node(place.node.value.kind, place.node.value.text + text,
                          if href.Some? then href.value else place.node.value.href)))
    else place
  }

  function Below(labels: seq<string>, place: Place): seq<string> {
    if place.Inside? && IsCategory(place.node) then labels + [place.node.value.text] else labels
  }

  /** Walks items directly inside `place`, whose category ancestors carry `labels`. */
  function Walk(reader: Reader, labels: seq<string>, place: Place, items: seq<Item>): Option<Walked>
    decreases items, 0
  {
    if items == [] then Some(Walked(place, []))
    else
      match WalkItem(reader, labels, place, items[0])
      case None => None
      case Some(first) =>
        match Walk(reader, labels, first.place, items[1..])
        case None => None
        case Some(rest) => Some(Walked(rest.place, first.tables + rest.tables))
  }

  function WalkItem(reader: Reader, labels: seq<string>, place: Place, item: Item): Option<Walked>
    decreases item, 1
  {
    match item
    case Text(text) => Some(Walked(Touch(place, text, None), []))
    case Anchor(href, body) => Walk(reader, labels, Touch(place, "", Some(href)), body)
    case Markup(body) => Walk(reader, labels, place, body)
    case Li(classes, body) =>
      var below := Below(labels, place);
      match Walk(reader, below, Inside(NewNode(classes)), body)
      case None => None
      case Some(inner) =>
        match if inner.place.Inside? then Closed(reader, inner.place.node, below) else None
        case None => None
        case Some(own) => Some(Walked(place, inner.tables + own))
  }

  // ---- The machine refines the walk -------------------------------------------------------

  function Push(nodes: seq<Option<Node>>, place: Place): seq<Option<Node>> {
    if place.Inside? then nodes + [place.node] else nodes
  }

  function Continue(reader: Reader, from: Option<State>, events: seq<Event>): Option<State> {
    match from
    case None => None
    case Some(s) => Feed(reader, s, events)
  }

  lemma {:induction false} FeedConcat(reader: Reader, s: State, a: seq<Event>, b: seq<Event>)
    ensures Feed(reader, s, a + b) == Continue(reader, Feed(reader, s, a), b)
    decreases |a|
  {
    if a == [] {
      assert a + b == b;
    } else {
      assert (a + b)[1..] == a[1..] + b;
      var next := Step(reader, s, a[0]);
      if next.Some? {
        FeedConcat(reader, next.value, a[1..], b);
      }
    }
  }

  /** What the machine must reach when the walk ends as `walked`. */
  function Reached(nodes: seq<Option<Node>>, tables: seq<WebTable>, walked: Option<Walked>): Option<State> {
    match walked
    case None => None
    case Some(w) => Some(State(Push(nodes, w.place), tables + w.tables))
  }

  ghost predicate Fits(nodes: seq<Option<Node>>, place: Place) { place.Outside? ==> nodes == [] }

  /** Touching or walking a place never changes whether, or in which kind of `li`, it lies. */
  lemma {:induction false} WalkStays(reader: Reader, labels: seq<string>, place: Place, items: seq<Item>)
    requires Walk(reader, labels, place, items).Some?
    ensures Walk(reader, labels, place, items).value.place.Inside? == place.Inside?
    decreases items, 0
  {
    if items != [] {
      var first := WalkItem(reader, labels, place, items[0]).value;
      match items[0] {
        case Anchor(href, body) => WalkStays(reader, labels, Touch(place, "", Some(href)), body);
        case Markup(body) => WalkStays(reader, labels, place, body);
        case _ =>
      }
      WalkStays(reader, labels, first.place, items[1..]);
    }
  }

  lemma LabelsPush(nodes: seq<Option<Node>>, place: Place)
    ensures Labels(Push(nodes, place)) == Below(Labels(nodes), place)
  {
    if place.Inside? {
      assert (nodes + [place.node])[..|nodes|] == nodes;
    }
  }

  lemma FeedOne(reader: Reader, s: State, e: Event)
    ensures Feed(reader, s, [e]) == Step(reader, s, e)
  {
    var next := Step(reader, s, e);
    assert [e][1..] == [];
  }

  lemma StepTouch(reader: Reader, nodes: seq<Option<Node>>, place: Place, tables: seq<WebTable>)
    requires Fits(nodes, place)
    ensures forall text :: Step(reader, State(Push(nodes, place), tables), Data(text))
                        == Some(State(Push(nodes, Touch(place, text, None)), tables))
    ensures forall href :: Step(reader, State(Push(nodes, place), tables), OpenA(href))
                        == Some(State(Push(nodes, Touch(place, "", Some(href))), tables))
  {
    if place.Inside? {
      var stack := Push(nodes, place);
      forall n: Option<Node>
        ensures stack[|stack| - 1 := n] == nodes + [n]
      {
      }
      if place.node.Some? {
        assert place.node.value.text + "" == place.node.value.text;
      }
    }
  }

  /** Feeding the events of well-nested items does to the stack and tables what the walk says. */
  lemma {:induction false} WalkRefines(reader: Reader, nodes: seq<Option<Node>>, place: Place, tables: seq<WebTable>,
                                       items: seq<Item>)
    requires Fits(nodes, place)
    ensures Feed(reader, State(Push(nodes, place), tables), Events(items))
         == Reached(nodes, tables, Walk(reader, Labels(nodes), place, items))
    decreases items, 0
  {
    hide Labels, Step, ItemEvents, WalkItem, Closed;
    if items == [] {
      assert tables + [] == tables;
    } else {
      var s := State(Push(nodes, place), tables);
      FeedConcat(reader, s, ItemEvents(items[0]), Events(items[1..]));
      ItemRefines(reader, nodes, place, tables, items[0]);
      var first := WalkItem(reader, Labels(nodes), place, items[0]);
      if first.Some? {
        WalkItemStays(reader, Labels(nodes), place, items[0]);
        WalkRefines(reader, nodes, first.value.place, tables + first.value.tables, items[1..]);
        var rest := Walk(reader, Labels(nodes), first.value.place, items[1..]);
        if rest.Some? {
          assert tables + first.value.tables + rest.value.tables == tables + (first.value.tables + rest.value.tables);
        }
      }
    }
  }

  lemma WalkItemStays(reader: Reader, labels: seq<string>, place: Place, item: Item)
    requires WalkItem(reader, labels, place, item).Some?
    ensures WalkItem(reader, labels, place, item).value.place.Inside? == place.Inside?
  {
    match item {
      case Anchor(href, body) => WalkStays(reader, labels, Touch(place, "", Some(href)), body);
      case Markup(body) => WalkStays(reader, labels, place, body);
      case _ =>
    }
  }

  /** An element: its opening event, its body, its closing event. */
  lemma FeedElement(reader: Reader, s: State, open: Event, body: seq<Event>, close: Event)
    ensures Feed(reader, s, [open] + body + [close])
         == Continue(reader, Continue(reader, Step(reader, s, open), body), [close])
  {
    FeedConcat(reader, s, [open] + body, [close]);
    FeedConcat(reader, s, [open], body);
    FeedOne(reader, s, open);
  }

  lemma {:induction false} ItemRefines(reader: Reader, nodes: seq<Option<Node>>, place: Place, tables: seq<WebTable>,
                                       item: Item)
    requires Fits(nodes, place)
    ensures Feed(reader, State(Push(nodes, place), tables), ItemEvents(item))
         == Reached(nodes, tables, WalkItem(reader, Labels(nodes), place, item))
    decreases item, 1
  {
    var s := State(Push(nodes, place), tables);
    match item {
      case Text(text) =>
        StepTouch(reader, nodes, place, tables);
        FeedOne(reader, s, Data(text));
        assert tables + [] == tables;
      case Anchor(href, body) =>
        StepTouch(reader, nodes, place, tables);
        FeedElement(reader, s, OpenA(href), Events(body), OtherTag);
        WalkRefines(reader, nodes, Touch(place, "", Some(href)), tables, body);
        var walked := Reached(nodes, tables, Walk(reader, Labels(nodes), Touch(place, "", Some(href)), body));
        if walked.Some? {
          FeedOne(reader, walked.value, OtherTag);
        }
      case Markup(body) =>
        FeedElement(reader, s, OtherTag, Events(body), OtherTag);
        WalkRefines(reader, nodes, place, tables, body);
        var walked := Reached(nodes, tables, Walk(reader, Labels(nodes), place, body));
        if walked.Some? {
          FeedOne(reader, walked.value, OtherTag);
        }
      case Li(classes, body) =>
        var stack := Push(nodes, place);
        FeedElement(reader, s, OpenLi(classes), Events(body), CloseLi);
        LabelsPush(nodes, place);
        WalkRefines(reader, stack, Inside(NewNode(classes)), tables, body);
        var inner := Walk(reader, Labels(stack), Inside(NewNode(classes)), body);
        if inner.Some? {
          WalkStays(reader, Labels(stack), Inside(NewNode(classes)), body);
          CloseRefines(reader, stack, inner.value.place.node, tables, inner.value.tables);
        }
    }
  }

  lemma CloseRefines(reader: Reader, stack: seq<Option<Node>>, node: Option<Node>, tables: seq<WebTable>,
                     inner: seq<WebTable>)
    ensures Feed(reader, State(stack + [node], tables + inner), [CloseLi])
         == match Closed(reader, node, Labels(stack))
            case None => None
            case Some(own) => Some(State(stack, tables + (inner + own)))
  {
    FeedOne(reader, State(stack + [node], tables + inner), CloseLi);
    assert (stack + [node])[..|stack|] == stack;
    var own := Closed(reader, node, Labels(stack));
    if own.Some? {
      assert tables + inner + own.value == tables + (inner + own.value);
    }
  }

  /**
   The parser agrees with the recursive walk on every well-nested document: it raises exactly
   when the walk does, its stack returns to empty, and it produces the walk's tables in the
   walk's order.
   */
  lemma ParserRefinesWalk(reader: Reader, items: seq<Item>)
    ensures Feed(reader, State([], []), Events(items))
         == match Walk(reader, [], Outside, items)
            case None => None
            case Some(walked) => Some(State([], walked.tables))
  {
    WalkRefines(reader, [], Outside, [], items);
    var walked := Walk(reader, [], Outside, items);
    if walked.Some? {
      WalkStays(reader, [], Outside, items);
      assert [] + walked.value.tables == walked.value.tables;
    }
  }

  // ---- Catalogues ------------------------------------------------------------------------

  /** What the page means: categories with a name, tables with a link, and unmarked list items. */
  datatype Tree =
    | Category(classes: set<string>, name: string, children: seq<Tree>)
    | Table(classes: set<string>, title: string, href: string)
    | Group(classes: set<string>, children: seq<Tree>)

  predicate MarksCategory(classes: set<string>) {
    "AspNet-TreeView-Root" in classes || "AspNet-TreeView-Parent" in classes
  }

  /** The classes tell what a list item is; a category's marks win over a table's, and others do not matter. */
  predicate WellMarked(trees: seq<Tree>)
    decreases trees, 0
  {
    trees != [] ==> WellMarkedTree(trees[0]) && WellMarked(trees[1..])
  }

  predicate WellMarkedTree(tree: Tree)
    decreases tree, 1
  {
    match tree
    case Category(classes, _, children) => MarksCategory(classes) && WellMarked(children)
    case Table(classes, _, _) => !MarksCategory(classes) && "AspNet-TreeView-Leaf" in classes
    case Group(classes, children) =>
      !MarksCategory(classes) && "AspNet-TreeView-Leaf" !in classes && WellMarked(children)
  }

  /** The page of a catalogue: each label precedes the children of its category. */
  function Page(trees: seq<Tree>): seq<Item>
    decreases trees, 0
  {
    if trees == [] then [] else [PageItem(trees[0])] + Page(trees[1..])
  }

  function PageItem(tree: Tree): Item
    decreases tree, 1
  {
    match tree
    case Category(classes, name, children) => Li(classes, [Markup([Text(name)]), Markup(Page(children))])
    case Table(classes, title, href) => Li(classes, [Anchor(href, [Text(title)])])
    case Group(classes, children) => Li(classes, [Markup(Page(children))])
  }

  /** A linked table with the names of the categories around it, outermost first. */
  datatype Link = Link(path: seq<string>, title: string, href: string)

  /** The linked tables of a catalogue in page order. */
  function Links(path: seq<string>, trees: seq<Tree>): seq<Link>
    decreases trees, 0
  {
    if trees == [] then [] else TreeLinks(path, trees[0]) + Links(path, trees[1..])
  }

  function TreeLinks(path: seq<string>, tree: Tree): seq<Link>
    decreases tree, 1
  {
    match tree
    case Category(_, name, children) => Links(path + [name], children)
    case Group(_, children) => Links(path, children)
    case Table(_, title, href) => if href == "" then [] else [Link(path, title, href)]
  }

  /** What the parser says about a link: its ids, its cleaned title and category names, one for each. */
  predicate Describes(reader: Reader, link: Link, table: WebTable) {
    && reader.ids(link.href, |link.path|) == Some(table.ids)
    && table.title == reader.clean(link.title) && table.href == link.href
    && |table.categoryNames| == |link.path|
    && forall i :: 0 <= i < |link.path| ==> table.categoryNames[i] == reader.clean(link.path[i])
  }

  /** The tables for the links, or none if the ids of one cannot be read. */
  ghost predicate Reads(reader: Reader, links: seq<Link>, tables: Option<seq<WebTable>>) {
    if tables.None? then exists i :: 0 <= i < |links| && reader.ids(links[i].href, |links[i].path|).None?
    else |tables.value| == |links| && forall i :: 0 <= i < |links| ==> Describes(reader, links[i], tables.value[i])
  }

  function At(place: Place, tables: Option<seq<WebTable>>): Option<Walked> {
    match tables
    case None => None
    case Some(ts) => Some(Walked(place, ts))
  }

  lemma WalkOne(reader: Reader, labels: seq<string>, place: Place, item: Item)
    ensures Walk(reader, labels, place, [item]) == WalkItem(reader, labels, place, item)
  {
    var first := WalkItem(reader, labels, place, item);
    assert [item][1..] == [];
    if first.Some? {
      assert first.value.tables + [] == first.value.tables;
    }
  }

  lemma WalkLabelled(reader: Reader, labels: seq<string>, kind: Kind, name: string, items: seq<Item>)
    ensures Walk(reader, labels, Inside(Some(Node(kind, "", ""))), [Markup([Text(name)]), Markup(items)])
         == Walk(reader, labels, Inside(Some(Node(kind, name, ""))), items)
  {
    var start, labelled := Inside(Some(Node(kind, "", ""))), Inside(Some(Node(kind, name, "")));
    WalkOne(reader, labels, start, Text(name));
    assert "" + name == name;
    WalkOne(reader, labels, labelled, Markup(items));
    assert [Markup([Text(name)]), Markup(items)][1..] == [Markup(items)];
    var rest := Walk(reader, labels, labelled, items);
    if rest.Some? {
      assert [] + rest.value.tables == rest.value.tables;
    }
  }

  lemma ReadsConcat(reader: Reader, a: seq<Link>, b: seq<Link>, first: seq<WebTable>, rest: Option<seq<WebTable>>)
    requires Reads(reader, a, Some(first)) && Reads(reader, b, rest)
    ensures Reads(reader, a + b, if rest.None? then None else Some(first + rest.value))
  {
    hide Describes;
    if rest.None? {
      var i :| 0 <= i < |b| && reader.ids(b[i].href, |b[i].path|).None?;
      assert (a + b)[|a| + i] == b[i];
    }
  }

  lemma ReadsNot(reader: Reader, a: seq<Link>, b: seq<Link>)
    requires Reads(reader, a, None)
    ensures Reads(reader, a + b, None)
  {
    var i :| 0 <= i < |a| && reader.ids(a[i].href, |a[i].path|).None?;
    assert (a + b)[i] == a[i];
  }

  /** Walking the page of some trees, below the categories `labels`, ends where it started. */
  ghost predicate WalksTo(reader: Reader, links: seq<Link>, place: Place, walked: Option<Walked>) {
    && (walked.Some? ==> walked.value.place == place)
    && Reads(reader, links, if walked.None? then None else Some(walked.value.tables))
  }

  lemma {:induction false} WalkPage(reader: Reader, labels: seq<string>, place: Place, trees: seq<Tree>)
    requires WellMarked(trees)
    ensures WalksTo(reader, Links(Below(labels, place), trees), place, Walk(reader, labels, place, Page(trees)))
    decreases trees, 0
  {
    hide Reads, Below;
    if trees == [] {
      NothingRead(reader);
    } else {
      WalkTree(reader, labels, place, trees[0]);
      WalkPage(reader, labels, place, trees[1..]);
      assert Page(trees)[1..] == Page(trees[1..]);
      var below := Below(labels, place);
      var first := WalkItem(reader, labels, place, PageItem(trees[0]));
      var rest := Walk(reader, labels, place, Page(trees[1..]));
      if first.None? {
        ReadsNot(reader, TreeLinks(below, trees[0]), Links(below, trees[1..]));
      } else {
        ReadsConcat(reader, TreeLinks(below, trees[0]), Links(below, trees[1..]), first.value.tables,
                    if rest.None? then None else Some(rest.value.tables));
      }
    }
  }

  lemma NothingRead(reader: Reader)
    ensures Reads(reader, [], Some([]))
  {
  }

  /** The walk of a list item that is no table adds nothing of its own. */
  lemma WalkBranch(reader: Reader, labels: seq<string>, place: Place, classes: set<string>, body: seq<Item>,
                   inside: Place, links: seq<Link>)
    requires !(NewNode(classes).Some? && NewNode(classes).value.kind.Leaf?) && inside.Inside?
    requires inside.node.Some? ==> !inside.node.value.kind.Leaf?
    requires WalksTo(reader, links, inside, Walk(reader, Below(labels, place), Inside(NewNode(classes)), body))
    ensures WalksTo(reader, links, place, WalkItem(reader, labels, place, Li(classes, body)))
  {
    hide Reads, Below;
    var inner := Walk(reader, Below(labels, place), Inside(NewNode(classes)), body);
    if inner.Some? {
      assert inner.value.tables + [] == inner.value.tables;
    }
  }

  lemma {:induction false} WalkTree(reader: Reader, labels: seq<string>, place: Place, tree: Tree)
    requires WellMarkedTree(tree)
    ensures WalksTo(reader, TreeLinks(Below(labels, place), tree), place,
                    WalkItem(reader, labels, place, PageItem(tree)))
    decreases tree, 1
  {
    hide Reads, WalksTo, WalkItem, Walk;
    var below := Below(labels, place);
    match tree {
      case Category(classes, name, children) =>
        var kind := if "AspNet-TreeView-Root" in classes then Root else Parent;
        assert NewNode(classes) == Some(Node(kind, "", ""));
        var inside := Inside(Some(Node(kind, name, "")));
        WalkLabelled(reader, below, kind, name, Page(children));
        WalkPage(reader, below, inside, children);
        WalkBranch(reader, labels, place, classes, [Markup([Text(name)]), Markup(Page(children))], inside,
                   Links(below + [name], children));
      case Group(classes, children) =>
        assert NewNode(classes) == None;
        WalkMarkup(reader, below, Inside(None), Page(children));
        WalkPage(reader, below, Inside(None), children);
        WalkBranch(reader, labels, place, classes, [Markup(Page(children))], Inside(None), Links(below, children));
      case Table(classes, title, href) =>
        WalkLink(reader, labels, place, classes, title, href);
    }
  }

  lemma WalkMarkup(reader: Reader, labels: seq<string>, place: Place, items: seq<Item>)
    ensures Walk(reader, labels, place, [Markup(items)]) == Walk(reader, labels, place, items)
  {
    WalkOne(reader, labels, place, Markup(items));
  }

  lemma WalkLink(reader: Reader, labels: seq<string>, place: Place, classes: set<string>, title: string, href: string)
    requires !MarksCategory(classes) && "AspNet-TreeView-Leaf" in classes
    ensures WalksTo(reader, TreeLinks(Below(labels, place), Table(classes, title, href)), place,
                    WalkItem(reader, labels, place, PageItem(Table(classes, title, href))))
  {
    var below := Below(labels, place);
    assert NewNode(classes) == Some(Node(Leaf, "", ""));
    WalkOne(reader, below, Inside(Some(Node(Leaf, "", ""))), Anchor(href, [Text(title)]));
    WalkOne(reader, below, Inside(Some(Node(Leaf, "", href))), Text(title));
    assert "" + "" == "" && "" + title == title;
    LinkRead(reader, Closed(reader, Some(Node(Leaf, title, href)), below), below, title, href);
    hide Closed, Reads, Below;
  }

  lemma LinkRead(reader: Reader, own: Option<seq<WebTable>>, below: seq<string>, title: string, href: string)
    requires own == Closed(reader, Some(Node(Leaf, title, href)), below)
    ensures Reads(reader, if href == "" then [] else [Link(below, title, href)], own)
    ensures own.Some? ==> [] + own.value == own.value
  {
    if own.None? {
      assert [Link(below, title, href)][0].href == href;
    }
  }

  /**
   Parsing the page of any catalogue gives exactly its linked tables, in page order, each with its ids, its
   title and the names of its categories outermost first, and leaves the stack empty; it fails exactly if
   the ids of some link cannot be read.
   */
  lemma ParsesCatalogue(reader: Reader, trees: seq<Tree>)
    requires WellMarked(trees)
    ensures var s := Feed(reader, State([], []), Events(Page(trees)));
      && (s.Some? ==> s.value.nodes == [])
      && (s.None? <==> exists i :: 0 <= i < |Links([], trees)| &&
                         reader.ids(Links([], trees)[i].href, |Links([], trees)[i].path|).None?)
      && (s.Some? ==> |s.value.tables| == |Links([], trees)|
                      && forall i :: 0 <= i < |Links([], trees)| ==>
                           Describes(reader, Links([], trees)[i], s.value.tables[i]))
  {
    ParserRefinesWalk(reader, Page(trees));
    WalkPage(reader, [], Outside, trees);
    hide Feed, Walk, Links, Page, Events;
    assert Below([], Outside) == [];
  }
}
