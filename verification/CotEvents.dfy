/**
 * Reading an inbound CoT event from XML tokens with a depth counter
 * (`parse_inbound_cot_event`), against the element tree the tokens flatten.
 * Tokenising and number parsing are not modelled: tokens come in as a sequence,
 * and `num` gives the bit pattern of a number text, if it is one.
 */
module CotEvents {
  import opened Wrappers

  // ---- tokens -----------------------------------------------------------------------

  /** An attribute; `value` is absent when it cannot be decoded. */
  datatype Attr = Attr(key: string, value: Option<string>) | BadAttr

  datatype Tag = Tag(name: string, attrs: seq<Attr>)

  datatype Token = Start(tag: Tag) | Empty(tag: Tag) | End | Other | Broken

  datatype Point = Point(lat: nat, lon: nat, hae: nat, ce: nat, le: nat)

  datatype Event = Event(
    version: string, uid: string, eventType: string, how: string,
    time: string, start: string, stale: string, access: Option<string>, point: Point)

  const DEFAULT_POINT := Point(0, 0, 0, 0, 0)

  /** `xml_attr`: the first attribute with that key, unless a malformed one comes before it. */
  function XmlAttr(attrs: seq<Attr>, key: string): Result<Option<string>, ()> {
    if attrs == [] then Ok(None)
    else match attrs[0] {
      case BadAttr => Err(())
      case Attr(k, value) =>
        if k != key then XmlAttr(attrs[1..], key)
        else match value { case None => Err(()) case Some(text) => Ok(Some(text)) }
    }
  }

  function TextAttr(tag: Tag, key: string): Option<string> {
    match XmlAttr(tag.attrs, key)
    case Err(_) => None
    case Ok(None) => Some("")
    case Ok(Some(text)) => Some(text)
  }

  function EventFromStart(tag: Tag): Option<Event> {
    var version, uid, kind := TextAttr(tag, "version"), TextAttr(tag, "uid"), TextAttr(tag, "type");
    var how, time, start := TextAttr(tag, "how"), TextAttr(tag, "time"), TextAttr(tag, "start");
    var stale, access := TextAttr(tag, "stale"), XmlAttr(tag.attrs, "access");
    if version.None? || uid.None? || kind.None? || how.None? || time.None? || start.None? || stale.None? || access.Err?
    then None
    else Some(Event(version.value, uid.value, kind.value, how.value, time.value, start.value, stale.value,
                    access.value, DEFAULT_POINT))
  }

  function NumberAttr(num: string -> Option<nat>, tag: Tag, key: string): Option<nat> {
    match XmlAttr(tag.attrs, key)
    case Err(_) => None
    case Ok(None) => num("0")
    case Ok(Some(text)) => num(text)
  }

  function PointFromStart(num: string -> Option<nat>, tag: Tag): Option<Point> {
    var lat, lon, hae := NumberAttr(num, tag, "lat"), NumberAttr(num, tag, "lon"), NumberAttr(num, tag, "hae");
    var ce, le := NumberAttr(num, tag, "ce"), NumberAttr(num, tag, "le");
    if lat.None? || lon.None? || hae.None? || ce.None? || le.None? then None
    else Some(Point(lat.value, lon.value, hae.value, ce.value, le.value))
  }

  // ---- the machine --------------------------------------------------------------------

  datatype State = State(event: Option<Event>, rootDepth: nat, depth: nat)

  /** What an opening tag at `at` does to the event; none when it ends the parse. */
  function Opened(num: string -> Option<nat>, s: State, tag: Tag, at: nat): Option<State> {
    if s.event.None? then
      match EventFromStart(tag) { case None => None case Some(e) => Some(s.(event := Some(e), rootDepth := at)) }
    else if at == s.rootDepth + 1 && tag.name == "point" then
      match PointFromStart(num, tag) {
        case None => None
        case Some(p) => Some(s.(event := Some(s.event.value.(point := p))))
      }
    else Some(s)
  }

  function Step(num: string -> Option<nat>, s: State, token: Token): Option<State> {
    match token
    case Start(tag) => Opened(num, s.(depth := s.depth + 1), tag, s.depth + 1)
    case Empty(tag) => Opened(num, s, tag, s.depth + 1)
    case End => Some(s.(depth := if s.depth > 0 then s.depth - 1 else 0))
    case Other => Some(s)
    case Broken => None
  }

  function Run(num: string -> Option<nat>, tokens: seq<Token>, s: State): Option<State> {
    if tokens == [] then Some(s)
    else match Step(num, s, tokens[0]) {
      case None => None
      case Some(next) => Run(num, tokens[1..], next)
    }
  }

  const INITIAL := State(None, 0, 0)

  function ParseTokens(num: string -> Option<nat>, tokens: seq<Token>): Option<Event> {
    match Run(num, tokens, INITIAL) case None => None case Some(s) => s.event
  }

  method ParseInboundCotEvent(num: string -> Option<nat>, tokens: seq<Token>) returns (event: Option<Event>)
    ensures event == ParseTokens(num, tokens)
  {
    hide EventFromStart, PointFromStart;
    event := None;
    var rootDepth: nat, depth: nat := 0, 0;
    for i := 0 to |tokens|
      invariant Run(num, tokens[i..], State(event, rootDepth, depth)) == Run(num, tokens, INITIAL)
    {
      match tokens[i] {
        case Start(tag) =>
          depth := depth + 1;
          if event.None? {
            event := EventFromStart(tag);
            if event.None? {
              return None;
            }
            rootDepth := depth;
          } else if depth == rootDepth + 1 && tag.name == "point" {
            var point := PointFromStart(num, tag);
            if point.None? {
              return None;
            }
            event := Some(event.value.(point := point.value));
          }
        case Empty(tag) =>
          var elementDepth := depth + 1;
          if event.None? {
            event := EventFromStart(tag);
            if event.None? {
              return None;
            }
            rootDepth := elementDepth;
          } else if elementDepth == rootDepth + 1 && tag.name == "point" {
            var point := PointFromStart(num, tag);
            if point.None? {
              return None;
            }
            event := Some(event.value.(point := point.value));
          }
        case End => depth := if depth > 0 then depth - 1 else 0;
        case Other =>
        case Broken =>
          return None;
      }
    }
  }

  /** A token that cannot be read ends the parse wherever it stands. */
  lemma {:induction false} BrokenTokenFails(num: string -> Option<nat>, tokens: seq<Token>, s: State)
    requires Broken in tokens
    ensures Run(num, tokens, s) == None
    ensures s == INITIAL ==> ParseTokens(num, tokens) == None
    decreases |tokens|
  {
    hide Opened;
    if tokens[0] != Broken {
      match Step(num, s, tokens[0])
      case None =>
      case Some(next) => BrokenTokenFails(num, tokens[1..], next);
    }
  }

  // ---- trees ------------------------------------------------------------------------------

  /** An XML node: an element with content, a self-closed element, or anything else. */
  datatype Node = Element(tag: Tag, children: seq<Node>) | SelfClosed(tag: Tag) | Misc

  function Flatten(node: Node): seq<Token>
    decreases node
  {
    match node
    case Element(tag, children) => [Start(tag)] + (FlattenAll(children) + [End])
    case SelfClosed(tag) => [Empty(tag)]
    case Misc => [Other]
  }

  function FlattenAll(nodes: seq<Node>): seq<Token>
    decreases nodes
  {
    if nodes == [] then [] else Flatten(nodes[0]) + FlattenAll(nodes[1..])
  }

  /** The tags of the points directly among `nodes`. */
  function PointTags(nodes: seq<Node>): seq<Tag> {
    if nodes == [] then [] else PointTag(nodes[0]) + PointTags(nodes[1..])
  }

  function PointTag(node: Node): seq<Tag> {
    if !node.Misc? && node.tag.name == "point" then [node.tag] else []
  }

  function Children(node: Node): seq<Node> { if node.Element? then node.children else [] }

  /** The direct points of every top-level element. */
  function DirectPoints(forest: seq<Node>): seq<Tag> {
    if forest == [] then [] else PointTags(Children(forest[0])) + DirectPoints(forest[1..])
  }

  /** The tags of the top-level elements. */
  function RootTags(forest: seq<Node>): seq<Tag> {
    if forest == [] then []
    else if forest[0].Misc? then RootTags(forest[1..])
    else [forest[0].tag] + RootTags(forest[1..])
  }

  /** The last point of a list, or `point` when the list is empty; none when one of them does not parse. */
  function LastPoint(num: string -> Option<nat>, tags: seq<Tag>, point: Point): Option<Point> {
    if tags == [] then Some(point)
    else match PointFromStart(num, tags[0]) {
      case None => None
      case Some(p) => LastPoint(num, tags[1..], p)
    }
  }

  /** What a document means: its first element's attributes and the last direct point. */
  function Meaning(num: string -> Option<nat>, forest: seq<Node>): Option<Event> {
    var roots := RootTags(forest);
    if roots == [] then None
    else match EventFromStart(roots[0]) {
      case None => None
      case Some(e) =>
        match LastPoint(num, DirectPoints(forest), DEFAULT_POINT) {
          case None => None
          case Some(p) => Some(e.(point := p))
        }
    }
  }

  // ---- the machine computes the meaning -------------------------------------------------------

  lemma {:induction false} RunConcat(num: string -> Option<nat>, a: seq<Token>, b: seq<Token>, s: State)
    ensures Run(num, a + b, s) == match Run(num, a, s) { case None => None case Some(t) => Run(num, b, t) }
    decreases |a|
  {
    hide Step;
    if a == [] {
      assert a + b == b;
    } else {
      assert (a + b)[1..] == a[1..] + b;
      match Step(num, s, a[0])
      case None =>
      case Some(next) => RunConcat(num, a[1..], b, next);
    }
  }

  lemma RunOne(num: string -> Option<nat>, token: Token, s: State)
    ensures Run(num, [token], s) == Step(num, s, token)
  {
    hide Step;
    if Step(num, s, token).Some? {
      assert Run(num, [token][1..], Step(num, s, token).value) == Step(num, s, token);
    }
  }

  /** An element's tokens: its opening, its children one level deeper, and back. */
  lemma RunElement(num: string -> Option<nat>, tag: Tag, children: seq<Node>, s: State)
    ensures Run(num, Flatten(Element(tag, children)), s) ==
            match Step(num, s, Start(tag)) {
              case None => None
              case Some(begun) =>
                match Run(num, FlattenAll(children), begun) {
                  case None => None
                  case Some(inside) => Step(num, inside, End)
                }
            }
  {
    hide Step, Run;
    var inner := FlattenAll(children);
    RunConcat(num, [Start(tag)], inner + [End], s);
    RunOne(num, Start(tag), s);
    match Step(num, s, Start(tag))
    case None =>
    case Some(begun) =>
      RunConcat(num, inner, [End], begun);
      match Run(num, inner, begun)
      case None =>
      case Some(inside) => RunOne(num, End, inside);
  }

  /** Below the root's children nothing changes the event. */
  lemma {:induction false} DeepNodesAreIgnored(num: string -> Option<nat>, nodes: seq<Node>, s: State)
    requires s.event.Some? && s.depth > s.rootDepth
    ensures Run(num, FlattenAll(nodes), s) == Some(s)
    decreases nodes, 1
  {
    if nodes != [] {
      DeepNodeIsIgnored(num, nodes[0], s);
      DeepNodesAreIgnored(num, nodes[1..], s);
      RunConcat(num, Flatten(nodes[0]), FlattenAll(nodes[1..]), s);
    }
  }

  lemma {:induction false} DeepNodeIsIgnored(num: string -> Option<nat>, node: Node, s: State)
    requires s.event.Some? && s.depth > s.rootDepth
    ensures Run(num, Flatten(node), s) == Some(s)
    decreases node, 0
  {
    hide Run, PointFromStart, FlattenAll;
    match node
    case Element(tag, children) =>
      RunElement(num, tag, children, s);
      DeepNodesAreIgnored(num, children, s.(depth := s.depth + 1));
    case SelfClosed(tag) => RunOne(num, Empty(tag), s);
    case Misc => RunOne(num, Other, s);
  }

  function WithPoint(s: State, p: Option<Point>): Option<State>
    requires s.event.Some?
  {
    match p case None => None case Some(point) => Some(s.(event := Some(s.event.value.(point := point))))
  }

  lemma {:induction false} LastPointConcat(num: string -> Option<nat>, a: seq<Tag>, b: seq<Tag>, point: Point)
    ensures LastPoint(num, a + b, point) ==
            match LastPoint(num, a, point) { case None => None case Some(p) => LastPoint(num, b, p) }
  {
    hide PointFromStart;
    if a == [] {
      assert a + b == b;
    } else {
      assert (a + b)[1..] == a[1..] + b;
      match PointFromStart(num, a[0])
      case None =>
      case Some(p) => LastPointConcat(num, a[1..], b, p);
    }
  }

  /** A direct child of the root: a point replaces the point, anything else is ignored. */
  lemma ChildOfRoot(num: string -> Option<nat>, node: Node, s: State)
    requires s.event.Some? && s.depth == s.rootDepth
    ensures Run(num, Flatten(node), s) == WithPoint(s, LastPoint(num, PointTags([node]), s.event.value.point))
  {
    hide Run, PointFromStart, FlattenAll, LastPoint;
    var point := s.event.value.point;
    OnePointTag(num, node, point);
    match node
    case Element(tag, children) =>
      RunElement(num, tag, children, s);
      var begun := Step(num, s, Start(tag));
      if begun.Some? {
        DeepNodesAreIgnored(num, children, begun.value);
      }
    case SelfClosed(tag) => RunOne(num, Empty(tag), s);
    case Misc => RunOne(num, Other, s);
  }

  lemma OnePointTag(num: string -> Option<nat>, node: Node, point: Point)
    ensures LastPoint(num, PointTags([node]), point) ==
            if !node.Misc? && node.tag.name == "point" then PointFromStart(num, node.tag) else Some(point)
  {
    hide PointFromStart;
    assert PointTags([node][1..]) == [];
    if !node.Misc? && node.tag.name == "point" {
      assert PointTags([node]) == [node.tag] && [node.tag][1..] == [];
      match PointFromStart(num, node.tag)
      case None =>
      case Some(p) => assert LastPoint(num, [node.tag][1..], p) == Some(p);
    }
  }

  lemma PointTagsSplit(nodes: seq<Node>)
    requires nodes != []
    ensures PointTags(nodes) == PointTags([nodes[0]]) + PointTags(nodes[1..])
  {
    SinglePointTag(nodes[0]);
  }

  lemma SinglePointTag(node: Node)
    ensures PointTags([node]) == PointTag(node)
  {
    hide PointTag;
    assert [node][1..] == [];
    assert PointTag(node) + [] == PointTag(node);
  }

  lemma {:induction false} ChildrenOfRoot(num: string -> Option<nat>, nodes: seq<Node>, s: State)
    requires s.event.Some? && s.depth == s.rootDepth
    ensures Run(num, FlattenAll(nodes), s) == WithPoint(s, LastPoint(num, PointTags(nodes), s.event.value.point))
    decreases |nodes|
  {
    hide Run, PointTags, Flatten;
    if nodes == [] {
      NoTokens(num, s);
    } else {
      var point := s.event.value.point;
      var first := LastPoint(num, PointTags([nodes[0]]), point);
      ChildOfRoot(num, nodes[0], s);
      RunConcat(num, Flatten(nodes[0]), FlattenAll(nodes[1..]), s);
      PointTagsSplit(nodes);
      LastPointConcat(num, PointTags([nodes[0]]), PointTags(nodes[1..]), point);
      if first.Some? {
        ChildrenOfRoot(num, nodes[1..], WithPoint(s, first).value);
      }
    }
  }

  lemma NoTokens(num: string -> Option<nat>, s: State)
    ensures Run(num, [], s) == Some(s) && PointTags([]) == []
  {
  }

  /** Top-level elements after the first add only their direct points. */
  lemma {:induction false} LaterRoots(num: string -> Option<nat>, forest: seq<Node>, s: State)
    requires s.event.Some? && s.depth == 0 && s.rootDepth == 1
    ensures Run(num, FlattenAll(forest), s) == WithPoint(s, LastPoint(num, DirectPoints(forest), s.event.value.point))
    decreases |forest|
  {
    hide Run, PointTags, Flatten;
    if forest == [] {
      NoTokens(num, s);
    } else {
      var point := s.event.value.point;
      var tags := PointTags(Children(forest[0]));
      LaterRoot(num, forest[0], s);
      RunConcat(num, Flatten(forest[0]), FlattenAll(forest[1..]), s);
      LastPointConcat(num, tags, DirectPoints(forest[1..]), point);
      if LastPoint(num, tags, point).Some? {
        LaterRoots(num, forest[1..], WithPoint(s, LastPoint(num, tags, point)).value);
      }
    }
  }

  lemma LaterRoot(num: string -> Option<nat>, node: Node, s: State)
    requires s.event.Some? && s.depth == 0 && s.rootDepth == 1
    ensures Run(num, Flatten(node), s) == WithPoint(s, LastPoint(num, PointTags(Children(node)), s.event.value.point))
  {
    hide Run, PointTags, FlattenAll, PointFromStart;
    NoTokens(num, s);
    match node
    case Element(tag, children) =>
      RunElement(num, tag, children, s);
      ChildrenOfRoot(num, children, s.(depth := 1));
    case SelfClosed(tag) => RunOne(num, Empty(tag), s);
    case Misc => RunOne(num, Other, s);
  }

  /** The first top-level element gives the event and its own direct points. */
  lemma FirstRoot(num: string -> Option<nat>, node: Node)
    requires !node.Misc?
    ensures Run(num, Flatten(node), INITIAL) ==
            match EventFromStart(node.tag) {
              case None => None
              case Some(e) => WithPoint(State(Some(e), 1, 0), LastPoint(num, PointTags(Children(node)), DEFAULT_POINT))
            }
  {
    hide Run, PointTags, FlattenAll;
    match EventFromStart(node.tag)
    case None =>
      if node.Element? { RunElement(num, node.tag, node.children, INITIAL); } else { RunOne(num, Empty(node.tag), INITIAL); }
    case Some(e) =>
      NoTokens(num, INITIAL);
      if node.Element? {
        RunElement(num, node.tag, node.children, INITIAL);
        ChildrenOfRoot(num, node.children, State(Some(e), 1, 1));
      } else {
        RunOne(num, Empty(node.tag), INITIAL);
      }
  }

  /** For the tokens of any document the machine yields exactly the document's meaning. */
  lemma {:induction false} MachineComputesMeaning(num: string -> Option<nat>, forest: seq<Node>)
    ensures ParseTokens(num, FlattenAll(forest)) == Meaning(num, forest)
    decreases |forest|
  {
    hide Run, PointTags, Flatten, EventFromStart, LastPoint;
    if forest == [] {
      NoTokens(num, INITIAL);
    } else {
      var first, rest := forest[0], forest[1..];
      RunConcat(num, Flatten(first), FlattenAll(rest), INITIAL);
      if first.Misc? {
        MiscRoot(num);
        MachineComputesMeaning(num, rest);
        assert [] + DirectPoints(rest) == DirectPoints(rest);
      } else {
        FirstRoot(num, first);
        LastPointConcat(num, PointTags(Children(first)), DirectPoints(rest), DEFAULT_POINT);
        var own := LastPoint(num, PointTags(Children(first)), DEFAULT_POINT);
        if EventFromStart(first.tag).Some? && own.Some? {
          LaterRoots(num, rest, WithPoint(State(EventFromStart(first.tag), 1, 0), own).value);
        }
      }
    }
  }

  lemma MiscRoot(num: string -> Option<nat>)
    ensures Run(num, Flatten(Misc), INITIAL) == Some(INITIAL) && PointTags(Children(Misc)) == []
  {
    RunOne(num, Other, INITIAL);
  }

  // ---- what the meaning is -------------------------------------------------------------------------

  lemma {:induction false} LastPointIs(num: string -> Option<nat>, tags: seq<Tag>, point: Point)
    ensures LastPoint(num, tags, point).Some? <==> forall i | 0 <= i < |tags| :: PointFromStart(num, tags[i]).Some?
    ensures LastPoint(num, tags, point).Some? && tags != [] ==>
              LastPoint(num, tags, point) == PointFromStart(num, tags[|tags| - 1])
  {
    hide PointFromStart;
    if tags != [] {
      match PointFromStart(num, tags[0])
      case None =>
      case Some(p) => LastPointIs(num, tags[1..], p);
    }
  }

  /** The first attribute with that key has this text, and no malformed one comes before it. */
  ghost predicate Gives(attrs: seq<Attr>, key: string, text: string) {
    exists i | 0 <= i < |attrs| :: attrs[i] == Attr(key, Some(text)) && Lacks(attrs[..i], key)
  }

  /** Neither an attribute with that key nor a malformed one. */
  ghost predicate Lacks(attrs: seq<Attr>, key: string) {
    forall i | 0 <= i < |attrs| :: attrs[i].Attr? && attrs[i].key != key
  }

  ghost predicate GivesText(attrs: seq<Attr>, key: string, text: string) {
    Gives(attrs, key, text) || (Lacks(attrs, key) && text == "")
  }

  ghost predicate GivesNumber(num: string -> Option<nat>, attrs: seq<Attr>, key: string, n: nat) {
    exists text :: (Gives(attrs, key, text) || (Lacks(attrs, key) && text == "0")) && num(text) == Some(n)
  }

  /** What a point's attributes say. */
  ghost predicate SaysPoint(num: string -> Option<nat>, tag: Tag, p: Point) {
    && GivesNumber(num, tag.attrs, "lat", p.lat)
    && GivesNumber(num, tag.attrs, "lon", p.lon)
    && GivesNumber(num, tag.attrs, "hae", p.hae)
    && GivesNumber(num, tag.attrs, "ce", p.ce)
    && GivesNumber(num, tag.attrs, "le", p.le)
  }

  /** What the root's attributes say, of everything but the point. */
  ghost predicate SaysEvent(tag: Tag, e: Event) {
    && GivesText(tag.attrs, "version", e.version)
    && GivesText(tag.attrs, "uid", e.uid)
    && GivesText(tag.attrs, "type", e.eventType)
    && GivesText(tag.attrs, "how", e.how)
    && GivesText(tag.attrs, "time", e.time)
    && GivesText(tag.attrs, "start", e.start)
    && GivesText(tag.attrs, "stale", e.stale)
    && (match e.access case Some(text) => Gives(tag.attrs, "access", text) case None => Lacks(tag.attrs, "access"))
  }

  lemma {:induction false} XmlAttrIs(attrs: seq<Attr>, key: string, text: string)
    ensures XmlAttr(attrs, key) == Ok(Some(text)) <==> Gives(attrs, key, text)
    ensures XmlAttr(attrs, key) == Ok(None) <==> Lacks(attrs, key)
  {
    if attrs != [] {
      var rest := attrs[1..];
      XmlAttrIs(rest, key, text);
      forall i | 0 < i < |attrs| ensures attrs[i] == rest[i - 1] {}
      if attrs[0].Attr? && attrs[0].key != key {
        if Gives(rest, key, text) {
          var i :| 0 <= i < |rest| && rest[i] == Attr(key, Some(text)) && Lacks(rest[..i], key);
          assert attrs[..i + 1] == [attrs[0]] + rest[..i];
          assert attrs[i + 1] == rest[i];
        }
        if Gives(attrs, key, text) {
          var i :| 0 <= i < |attrs| && attrs[i] == Attr(key, Some(text)) && Lacks(attrs[..i], key);
          assert attrs[..i][1..] == rest[..i - 1];
        }
      } else if XmlAttr(attrs, key) == Ok(Some(text)) {
        assert Lacks(attrs[..0], key);
      }
    }
  }

  lemma NumberAttrIs(num: string -> Option<nat>, tag: Tag, key: string, n: nat)
    ensures NumberAttr(num, tag, key) == Some(n) <==> GivesNumber(num, tag.attrs, key, n)
  {
    hide XmlAttr, Gives, Lacks;
    var found := XmlAttr(tag.attrs, key);
    forall text ensures found == Ok(Some(text)) <==> Gives(tag.attrs, key, text) { XmlAttrIs(tag.attrs, key, text); }
    XmlAttrIs(tag.attrs, key, "");
    if found.Ok? {
      var text := if found.value.Some? then found.value.value else "0";
      assert found == Ok(Some(text)) || found == Ok(None);
      assert Gives(tag.attrs, key, text) || (Lacks(tag.attrs, key) && text == "0");
    }
  }

  lemma TextAttrIs(tag: Tag, key: string, text: string)
    ensures TextAttr(tag, key) == Some(text) <==> GivesText(tag.attrs, key, text)
  {
    hide XmlAttr, Gives, Lacks;
    XmlAttrIs(tag.attrs, key, text);
  }

  /** The point is what its attributes say, each number in its own place. */
  lemma PointIs(num: string -> Option<nat>, tag: Tag, p: Point)
    ensures PointFromStart(num, tag) == Some(p) <==> SaysPoint(num, tag, p)
  {
    hide NumberAttr, GivesNumber;
    NumberAttrIs(num, tag, "lat", p.lat);
    NumberAttrIs(num, tag, "lon", p.lon);
    NumberAttrIs(num, tag, "hae", p.hae);
    NumberAttrIs(num, tag, "ce", p.ce);
    NumberAttrIs(num, tag, "le", p.le);
  }

  lemma EventIs(tag: Tag, e: Event)
    ensures EventFromStart(tag) == Some(e) <==> SaysEvent(tag, e) && e.point == Point(0, 0, 0, 0, 0)
  {
    hide TextAttr, GivesText, XmlAttr, Gives, Lacks;
    TextAttrIs(tag, "version", e.version);
    TextAttrIs(tag, "uid", e.uid);
    TextAttrIs(tag, "type", e.eventType);
    TextAttrIs(tag, "how", e.how);
    TextAttrIs(tag, "time", e.time);
    TextAttrIs(tag, "start", e.start);
    TextAttrIs(tag, "stale", e.stale);
    XmlAttrIs(tag.attrs, "access", if e.access.Some? then e.access.value else "");
  }

  // ---- whole documents ----------------------------------------------------------------------------

  predicate IsPoint(node: Node) { !node.Misc? && node.tag.name == "point" }

  /** The last point among the children says `p`; without one it is all zeros. */
  ghost predicate LastPointSays(num: string -> Option<nat>, children: seq<Node>, p: Point) {
    if forall i | 0 <= i < |children| :: !IsPoint(children[i]) then p == Point(0, 0, 0, 0, 0)
    else exists k | 0 <= k < |children| && IsLastPoint(children, k) :: SaysPoint(num, children[k].tag, p)
  }

  ghost predicate IsLastPoint(nodes: seq<Node>, k: nat) {
    k < |nodes| && IsPoint(nodes[k]) && forall j | k < j < |nodes| :: !IsPoint(nodes[j])
  }

  lemma {:induction false} PointTagsAre(nodes: seq<Node>, tag: Tag)
    ensures tag in PointTags(nodes) <==> exists i | 0 <= i < |nodes| :: IsPoint(nodes[i]) && nodes[i].tag == tag
  {
    if nodes != [] {
      var rest := nodes[1..];
      PointTagsAre(rest, tag);
      forall i | 0 < i < |nodes| ensures nodes[i] == rest[i - 1] {}
      forall i | 0 <= i < |rest| ensures rest[i] == nodes[i + 1] {}
    }
  }

  /** The last tag collected is that of the last point. */
  lemma {:induction false} LastPointTag(nodes: seq<Node>) returns (k: nat)
    ensures PointTags(nodes) == [] <==> forall i | 0 <= i < |nodes| :: !IsPoint(nodes[i])
    ensures var tags := PointTags(nodes); tags != [] ==> IsLastPoint(nodes, k) && nodes[k].tag == tags[|tags| - 1]
  {
    k := 0;
    if nodes != [] {
      var rest := nodes[1..];
      var r := LastPointTag(rest);
      forall i | 0 < i < |nodes| ensures nodes[i] == rest[i - 1] {}
      forall i | 0 <= i < |rest| ensures rest[i] == nodes[i + 1] {}
      if PointTags(rest) != [] {
        k := r + 1;
      }
    }
  }

  lemma OneLastPoint(nodes: seq<Node>, j: nat, k: nat)
    requires IsLastPoint(nodes, j) && IsLastPoint(nodes, k)
    ensures j == k
  {
  }

  lemma PointsSay(num: string -> Option<nat>, children: seq<Node>, p: Point)
    ensures var points := PointTags(children);
            && ((forall i | 0 <= i < |points| :: PointFromStart(num, points[i]).Some?) <==>
                (forall i | 0 <= i < |children| && IsPoint(children[i]) :: exists q :: SaysPoint(num, children[i].tag, q)))
            && (LastPointSays(num, children, p) <==>
                if points == [] then p == DEFAULT_POINT else PointFromStart(num, points[|points| - 1]) == Some(p))
  {
    hide PointFromStart, SaysPoint, PointTags, IsLastPoint;
    var points := PointTags(children);
    var k := LastPointTag(children);
    if points != [] {
      PointIs(num, points[|points| - 1], p);
      forall j | IsLastPoint(children, j) ensures j == k { OneLastPoint(children, j, k); }
      LastIsPoint(children, k);
    }
    forall tag ensures PointFromStart(num, tag).Some? <==> exists q :: SaysPoint(num, tag, q) { SomePoint(num, tag); }
    forall tag ensures tag in points <==> exists i | 0 <= i < |children| :: IsPoint(children[i]) && children[i].tag == tag {
      PointTagsAre(children, tag);
    }
    EachOfThem(num, children, points);
  }

  lemma LastIsPoint(nodes: seq<Node>, k: nat)
    ensures IsLastPoint(nodes, k) ==> k < |nodes| && IsPoint(nodes[k])
  {
  }

  lemma EachOfThem(num: string -> Option<nat>, children: seq<Node>, points: seq<Tag>)
    requires forall tag :: tag in points <==> exists i | 0 <= i < |children| :: IsPoint(children[i]) && children[i].tag == tag
    ensures (forall i | 0 <= i < |points| :: PointFromStart(num, points[i]).Some?) <==>
            (forall i | 0 <= i < |children| && IsPoint(children[i]) :: PointFromStart(num, children[i].tag).Some?)
  {
    hide PointFromStart;
    if forall i | 0 <= i < |points| :: PointFromStart(num, points[i]).Some? {
      forall i | 0 <= i < |children| && IsPoint(children[i]) ensures PointFromStart(num, children[i].tag).Some? {
        assert children[i].tag in points;
      }
    }
    if forall i | 0 <= i < |children| && IsPoint(children[i]) :: PointFromStart(num, children[i].tag).Some? {
      forall i | 0 <= i < |points| ensures PointFromStart(num, points[i]).Some? {
        assert points[i] in points;
      }
    }
  }

  lemma SomePoint(num: string -> Option<nat>, tag: Tag)
    ensures PointFromStart(num, tag).Some? <==> exists q :: SaysPoint(num, tag, q)
  {
    hide PointFromStart, SaysPoint;
    if PointFromStart(num, tag).Some? { PointIs(num, tag, PointFromStart(num, tag).value); }
    forall q | SaysPoint(num, tag, q) ensures PointFromStart(num, tag) == Some(q) { PointIs(num, tag, q); }
  }

  /** The root says `e`, its point aside. */
  lemma RootSays(tag: Tag, e: Event)
    ensures SaysEvent(tag, e) <==> EventFromStart(tag) == Some(e.(point := DEFAULT_POINT))
    ensures EventFromStart(tag).Some? ==> EventFromStart(tag).value.point == DEFAULT_POINT
  {
    hide GivesText, Gives, Lacks, TextAttr, XmlAttr;
    EventIs(tag, e.(point := DEFAULT_POINT));
  }

  lemma SingleRootParses(num: string -> Option<nat>, before: seq<Node>, tag: Tag, children: seq<Node>, after: seq<Node>)
    requires forall n | n in before + after :: n.Misc?
    ensures var parsed := ParseTokens(num, FlattenAll(before + ([Element(tag, children)] + after)));
            var points := PointTags(children);
            && (parsed.Some? <==>
                  EventFromStart(tag).Some? && forall i | 0 <= i < |points| :: PointFromStart(num, points[i]).Some?)
            && (parsed.Some? ==>
                  parsed.value == EventFromStart(tag).value.(
                    point := if points == [] then DEFAULT_POINT else PointFromStart(num, points[|points| - 1]).value))
  {
    hide EventFromStart, PointFromStart, ParseTokens, LastPoint;
    var forest := before + ([Element(tag, children)] + after);
    MachineComputesMeaning(num, forest);
    OneRoot(before, Element(tag, children), after);
    LastPointIs(num, PointTags(children), DEFAULT_POINT);
    NoPoints(num);
  }

  /**
   * A document with one root parses exactly when the root's attributes and all its direct
   * points do; the event is what they say, with the last direct point, and deeper points do not matter.
   */
  lemma SingleRootEvent(num: string -> Option<nat>, before: seq<Node>, tag: Tag, children: seq<Node>, after: seq<Node>,
                        e: Event)
    requires forall n | n in before + after :: n.Misc?
    ensures ParseTokens(num, FlattenAll(before + ([Element(tag, children)] + after))) == Some(e) <==>
            && SaysEvent(tag, e)
            && (forall i | 0 <= i < |children| && IsPoint(children[i]) :: exists p :: SaysPoint(num, children[i].tag, p))
            && LastPointSays(num, children, e.point)
  {
    hide EventFromStart, PointFromStart, ParseTokens, SaysEvent, SaysPoint, PointTags, IsPoint, LastPointSays;
    SingleRootParses(num, before, tag, children, after);
    RootSays(tag, e);
    PointsSay(num, children, e.point);
  }

  lemma NoPoints(num: string -> Option<nat>)
    ensures LastPoint(num, [], DEFAULT_POINT) == Some(DEFAULT_POINT)
  {
  }

  lemma {:induction false} OneRoot(before: seq<Node>, root: Node, after: seq<Node>)
    requires !root.Misc? && forall n | n in before + after :: n.Misc?
    ensures RootTags(before + ([root] + after)) != [] && RootTags(before + ([root] + after))[0] == root.tag
    ensures DirectPoints(before + ([root] + after)) == PointTags(Children(root))
    decreases |before|
  {
    var forest := before + ([root] + after);
    if before == [] {
      assert forest == [root] + after && forest[1..] == after;
      MiscHasNoPoints(after);
      assert PointTags(Children(root)) + [] == PointTags(Children(root));
    } else {
      assert before[0] in before + after;
      assert forest[0] == before[0] && forest[1..] == before[1..] + ([root] + after);
      forall n | n in before[1..] + after ensures n.Misc? { assert n in before + after; }
      OneRoot(before[1..], root, after);
      assert [] + PointTags(Children(root)) == PointTags(Children(root));
    }
  }

  lemma {:induction false} MiscHasNoPoints(nodes: seq<Node>)
    requires forall n | n in nodes :: n.Misc?
    ensures DirectPoints(nodes) == []
  {
    if nodes != [] {
      assert nodes[0] in nodes && Children(nodes[0]) == [];
      MiscHasNoPoints(nodes[1..]);
    }
  }

  // ---- an example -----------------------------------------------------------------------------------

  function SampleRoot(): Tag {
    Tag("event", [Attr("uid", Some("u1")), Attr("type", Some("a-f-G")), Attr("how", Some("m-g")), Attr("uid", Some("u2"))])
  }

  function SamplePoint(): Tag { Tag("point", [Attr("lat", Some("1")), Attr("lon", Some("2"))]) }

  lemma SampleEvent(num: string -> Option<nat>)
    requires num("0") == Some(0) && num("1") == Some(1) && num("2") == Some(2)
    ensures ParseTokens(num, [Start(SampleRoot()), Empty(SamplePoint()), End])
            == Some(Event("", "u1", "a-f-G", "m-g", "", "", "", None, Point(1, 2, 0, 0, 0)))
  {
    SampleRootSays();
    SamplePointSays(num);
    hide EventFromStart, PointFromStart;
    var tokens := [Start(SampleRoot()), Empty(SamplePoint()), End];
    assert tokens[1..] == [Empty(SamplePoint()), End];
    assert tokens[2..] == [End] && tokens[2..][1..] == [];
  }

  lemma SampleRootSays()
    ensures EventFromStart(SampleRoot()) == Some(Event("", "u1", "a-f-G", "m-g", "", "", "", None, DEFAULT_POINT))
  {
    var attrs := SampleRoot().attrs;
    assert attrs[1..][1..] == attrs[2..] && attrs[2..][1..] == attrs[3..] && attrs[3..][1..] == [];
  }

  lemma SamplePointSays(num: string -> Option<nat>)
    requires num("0") == Some(0) && num("1") == Some(1) && num("2") == Some(2)
    ensures PointFromStart(num, SamplePoint()) == Some(Point(1, 2, 0, 0, 0)) && SamplePoint().name == "point"
  {
    var attrs := SamplePoint().attrs;
    assert attrs[1..][1..] == [];
  }
}
