/** The walk over the device description (`parseDescription`): a forward
    pass over the parser's events that finds the first WANIPConnection or
    WANPPPConnection service and its control URL. */
module Description {
  import opened Results
  import opened JavaString
  import opened Xml

  /** A committed service: its type and its (still relative) control URL. */
  datatype Service = Service(serviceType: string, controlURL: string)

  /** The walk's locals: the tag currently open and the values found so far
      in the current service. */
  datatype Walker = Walker(
    currentTag: Option<string>,
    serviceType: Option<string>,
    controlURL: Option<string>)

  /** The state before the first event, and after a rejected `service`. */
  const Fresh := Walker(None, None, None)

  /** One step either continues the walk or commits and stops it. */
  datatype Step = Continue(walker: Walker) | Commit(service: Service)

  predicate IsServiceTag(name: string) {
    EqualsIgnoreCase(name, "service")
  }

  predicate IsServiceTypeTag(name: string) {
    EqualsIgnoreCase("serviceType", name)
  }

  predicate IsControlURLTag(name: string) {
    EqualsIgnoreCase("controlURL", name)
  }

  /** The lower-cased type names a WAN IP or WAN PPP connection. */
  predicate IsSupportedType(serviceType: string) {
    || Contains(Lower(serviceType), ":wanipconnection:")
    || Contains(Lower(serviceType), ":wanpppconnection:")
  }

  /** Both values of the current service are present and the type is one
      the gateway can drive. */
  predicate Qualifies(w: Walker) {
    w.serviceType.Some? && w.controlURL.Some? && IsSupportedType(w.serviceType.value)
  }

  /** A value the walk may hold: non-empty and already trimmed. */
  predicate IsCollected(v: Option<string>) {
    v.Some? ==> v.value != [] && Trim(v.value) == v.value
  }

  predicate Clean(w: Walker) {
    IsCollected(w.serviceType) && IsCollected(w.controlURL)
  }

  /** The loop body of `parseDescription` for one event. */
  function Next(w: Walker, e: Event): (r: Step)
    // a commit happens exactly at the close of a qualifying service
    ensures r.Commit? <==> e.EndTag? && IsServiceTag(e.name) && Qualifies(w)
    ensures r.Commit? ==>
      r.service == Service(Trim(w.serviceType.value), Trim(w.controlURL.value))
    // every end tag clears the current tag; a rejected service resets the walk
    ensures e.EndTag? && r.Continue? ==> r.walker.currentTag.None?
    ensures e.EndTag? && IsServiceTag(e.name) && r.Continue? ==> r.walker == Fresh
    ensures e.EndTag? && !IsServiceTag(e.name) ==>
      r == Continue(w.(currentTag := None))
    // a start tag only changes the current tag
    ensures e.StartTag? ==> r == Continue(w.(currentTag := Some(e.name)))
    // text only fills the field named by the current tag, and only when it
    // trims to something non-empty
    ensures e.Text? ==> r.Continue? && r.walker.currentTag == w.currentTag
    ensures e.Text? && (w.currentTag.None? || Trim(e.text) == []) ==> r == Continue(w)
    ensures e.Text? && w.currentTag.Some? && Trim(e.text) != [] && IsServiceTypeTag(w.currentTag.value) ==>
      r == Continue(w.(serviceType := Some(Trim(e.text))))
    ensures (e.Text? && w.currentTag.Some? && Trim(e.text) != [] && !IsServiceTypeTag(w.currentTag.value)
             && IsControlURLTag(w.currentTag.value)) ==>
      r == Continue(w.(controlURL := Some(Trim(e.text))))
    ensures e.Text? && r.walker.serviceType != w.serviceType ==>
      w.currentTag.Some? && IsServiceTypeTag(w.currentTag.value)
      && r.walker.serviceType == Some(Trim(e.text)) && r.walker.controlURL == w.controlURL
    ensures e.Text? && r.walker.controlURL != w.controlURL ==>
      w.currentTag.Some? && IsControlURLTag(w.currentTag.value) && !IsServiceTypeTag(w.currentTag.value)
      && r.walker.controlURL == Some(Trim(e.text)) && r.walker.serviceType == w.serviceType
  {
    match e
    case StartTag(name) => Continue(w.(currentTag := Some(name)))
    case Text(raw) =>
      var text := Trim(raw);
      if w.currentTag.None? || text == [] then Continue(w)
      else if IsServiceTypeTag(w.currentTag.value) then Continue(w.(serviceType := Some(text)))
      else if IsControlURLTag(w.currentTag.value) then Continue(w.(controlURL := Some(text)))
      else Continue(w)
    case EndTag(name) =>
      if IsServiceTag(name) then
        if Qualifies(w) then
          Commit(Service(Trim(w.serviceType.value), Trim(w.controlURL.value)))
        else
          Continue(Fresh)
      else
        Continue(w.(currentTag := None))
  }

  /** The `parseDescription` loop: consume events until one commits. */
  function Run(events: seq<Event>, w: Walker): Step
  {
    if events == [] then Continue(w)
    else
      match Next(w, events[0])
      case Commit(s) => Commit(s)
      case Continue(w') => Run(events[1..], w')
  }

  /** The service `parseDescription` settles on, if any; `None` is the
      "Unsupported Gateway" failure of the constructor. */
  function ParseDescription(events: seq<Event>): (r: Option<Service>)
    ensures r.Some? ==> IsSupportedType(r.value.serviceType)
    ensures r.Some? ==> r.value.serviceType != [] && Trim(r.value.serviceType) == r.value.serviceType
    ensures r.Some? ==> r.value.controlURL != [] && Trim(r.value.controlURL) == r.value.controlURL
  {
    RunKeepsClean(events, Fresh);
    match Run(events, Fresh)
    case Commit(s) => Some(s)
    case Continue(_) => None
  }

  /** The walk only ever holds non-empty trimmed values, and what it commits
      is a qualifying type with a non-empty control URL, both trimmed. */
  lemma {:induction false} RunKeepsClean(events: seq<Event>, w: Walker)
    requires Clean(w)
    ensures Run(events, w).Continue? ==> Clean(Run(events, w).walker)
    ensures Run(events, w).Commit? ==>
      var s := Run(events, w).service;
      && IsSupportedType(s.serviceType)
      && s.serviceType != [] && Trim(s.serviceType) == s.serviceType
      && s.controlURL != [] && Trim(s.controlURL) == s.controlURL
  {
    if events != [] {
      NextKeepsClean(w, events[0]);
      match Next(w, events[0])
      case Commit(s) =>
      case Continue(w') => RunKeepsClean(events[1..], w');
    }
  }

  lemma NextKeepsClean(w: Walker, e: Event)
    requires Clean(w)
    ensures Next(w, e).Continue? ==> Clean(Next(w, e).walker)
    ensures Next(w, e).Commit? ==>
      var s := Next(w, e).service;
      && IsSupportedType(s.serviceType)
      && s.serviceType != [] && Trim(s.serviceType) == s.serviceType
      && s.controlURL != [] && Trim(s.controlURL) == s.controlURL
  {
    match e
    case StartTag(_) =>
    case EndTag(_) =>
    case Text(raw) =>
      TrimIdempotent(raw);
      var w' := Next(w, e).walker;
      assert IsCollected(w'.serviceType) by {
        if w'.serviceType != w.serviceType { assert w'.serviceType == Some(Trim(raw)); }
      }
      assert IsCollected(w'.controlURL) by {
        if w'.controlURL != w.controlURL { assert w'.controlURL == Some(Trim(raw)); }
      }
  }

  /** Running over `a + b` is running over `a`, then over `b` from where
      `a` left off, unless `a` already committed. */
  lemma {:induction false} RunAppend(a: seq<Event>, b: seq<Event>, w: Walker)
    ensures Run(a + b, w) ==
      match Run(a, w)
      case Commit(s) => Commit(s)
      case Continue(w') => Run(b, w')
  {
    if a == [] {
      assert a + b == b;
    } else {
      assert (a + b)[0] == a[0];
      assert (a + b)[1..] == a[1..] + b;
      match Next(w, a[0])
      case Commit(s) =>
      case Continue(w') => RunAppend(a[1..], b, w');
    }
  }

  /** The first qualifying service wins: once the events so far have
      committed, no further events change the result. */
  lemma FirstServiceWins(a: seq<Event>, b: seq<Event>)
    requires ParseDescription(a).Some?
    ensures ParseDescription(a + b) == ParseDescription(a)
  {
    RunAppend(a, b, Fresh);
  }

  /** Closing a rejected service forgets everything collected so far, so the
      values of one service never leak into the next: whatever came before,
      the result depends only on the events after that close. */
  lemma NoLeakPastRejectedService(a: seq<Event>, name: string, b: seq<Event>)
    requires IsServiceTag(name)
    requires Run(a + [EndTag(name)], Fresh).Continue?
    ensures ParseDescription(a + [EndTag(name)] + b) == ParseDescription(b)
  {
    var closed := a + [EndTag(name)];
    RunAppend(a, [EndTag(name)], Fresh);
    RunAppend(closed, b, Fresh);
    match Run(a, Fresh)
    case Continue(w) =>
      assert Run([EndTag(name)], w) == Run(closed, Fresh);
      assert Run(closed, Fresh) == Continue(Fresh);
  }

  /** Events that, entered with `tag` as the current tag, neither close a
      `service` nor give non-blank text to a `serviceType` or `controlURL`
      tag: whitespace, `serviceId`, `SCPDURL`, `eventSubURL` and the like. */
  predicate Inert(events: seq<Event>, tag: Option<string>)
    decreases |events|
  {
    if events == [] then true
    else
      match events[0]
      case StartTag(name) => Inert(events[1..], Some(name))
      case EndTag(name) => !IsServiceTag(name) && Inert(events[1..], None)
      case Text(text) =>
        && (Trim(text) == [] || tag.None? || (!IsServiceTypeTag(tag.value) && !IsControlURLTag(tag.value)))
        && Inert(events[1..], tag)
  }

  /** Inert events never commit and leave both collected values alone;
      they change at most the current tag. */
  lemma {:induction false} InertKeeps(events: seq<Event>, w: Walker)
    requires Inert(events, w.currentTag)
    ensures Run(events, w).Continue?
    ensures Run(events, w).walker.serviceType == w.serviceType
    ensures Run(events, w).walker.controlURL == w.controlURL
    decreases |events|
  {
    if events != [] {
      var r := Next(w, events[0]);
      assert r.Continue? && r.walker.serviceType == w.serviceType && r.walker.controlURL == w.controlURL;
      InertKeeps(events[1..], r.walker);
    }
  }

  /** `<tag>text` followed by events that are inert under `tag`: the text
      fills the field the tag names, and nothing else changes that field
      or the other one. */
  lemma FieldThenInert(tag: string, text: string, rest: seq<Event>, w: Walker)
    requires IsServiceTypeTag(tag) || IsControlURLTag(tag)
    requires Trim(text) != [] && Inert(rest, Some(tag))
    ensures Run([StartTag(tag), Text(text)] + rest, w).Continue?
    ensures IsServiceTypeTag(tag) ==>
      && Run([StartTag(tag), Text(text)] + rest, w).walker.serviceType == Some(Trim(text))
      && Run([StartTag(tag), Text(text)] + rest, w).walker.controlURL == w.controlURL
    ensures IsControlURLTag(tag) ==>
      && Run([StartTag(tag), Text(text)] + rest, w).walker.controlURL == Some(Trim(text))
      && Run([StartTag(tag), Text(text)] + rest, w).walker.serviceType == w.serviceType
  {
    TagKindsDisjoint(tag);
    var events := [StartTag(tag), Text(text)] + rest;
    var w1 := w.(currentTag := Some(tag));
    var w2 := if IsServiceTypeTag(tag) then w1.(serviceType := Some(Trim(text)))
              else w1.(controlURL := Some(Trim(text)));
    assert events[1..][1..] == rest;
    assert Run(events, w) == Run(events[1..], w1);
    assert Run(events[1..], w1) == Run(rest, w2);
    InertKeeps(rest, w2);
  }

  /** A `<service>` block as devices write it: after the opening tag, any
      inert events; then a `serviceType` and a `controlURL` field, in
      either order, each followed by inert events (its own end tag,
      whitespace, sibling elements such as `serviceId` or `SCPDURL`); then
      the closing `service` tag. */
  function ServiceBlock(open: string, lead: seq<Event>,
                        typeTag: string, t: string, afterType: seq<Event>,
                        urlTag: string, u: string, afterURL: seq<Event>,
                        typeFirst: bool, close: string): seq<Event>
  {
    var typePart := [StartTag(typeTag), Text(t)] + afterType;
    var urlPart := [StartTag(urlTag), Text(u)] + afterURL;
    [StartTag(open)] + lead + (if typeFirst then typePart + urlPart else urlPart + typePart) + [EndTag(close)]
  }

  /** The three tag names differ in length, so no name is two of them. */
  lemma TagKindsDisjoint(name: string)
    ensures !(IsServiceTag(name) && IsServiceTypeTag(name))
    ensures !(IsServiceTag(name) && IsControlURLTag(name))
    ensures !(IsServiceTypeTag(name) && IsControlURLTag(name))
  {
    assert |Lower("service")| == 7;
    assert |Lower("serviceType")| == 11;
    assert |Lower("controlURL")| == 10;
  }

  /** A service block with a supported type and a non-blank control URL
      commits their trimmed values, whatever state the walk was in and
      whatever inert events surround the two fields. */
  lemma ServiceBlockCommits(w: Walker, open: string, lead: seq<Event>,
                            typeTag: string, t: string, afterType: seq<Event>,
                            urlTag: string, u: string, afterURL: seq<Event>,
                            typeFirst: bool, close: string)
    requires IsServiceTypeTag(typeTag) && IsControlURLTag(urlTag) && IsServiceTag(close)
    requires Trim(t) != [] && Trim(u) != [] && IsSupportedType(Trim(t))
    requires Inert(lead, Some(open)) && Inert(afterType, Some(typeTag)) && Inert(afterURL, Some(urlTag))
    ensures Run(ServiceBlock(open, lead, typeTag, t, afterType, urlTag, u, afterURL, typeFirst, close), w)
         == Commit(Service(Trim(t), Trim(u)))
  {
    TagKindsDisjoint(typeTag);
    TagKindsDisjoint(urlTag);
    TrimIdempotent(t);
    TrimIdempotent(u);
    var typePart := [StartTag(typeTag), Text(t)] + afterType;
    var urlPart := [StartTag(urlTag), Text(u)] + afterURL;
    var fields := if typeFirst then typePart + urlPart else urlPart + typePart;
    var opening := [StartTag(open)] + lead;
    // the opening tag and the lead keep the collected values
    assert opening[1..] == lead;
    InertKeeps(opening, w);
    var w0 := Run(opening, w).walker;
    // the two fields, in either order, set both values
    var w2 := FieldsFill(typeTag, t, afterType, urlTag, u, afterURL, typeFirst, w0);
    // the closing tag commits
    assert Run([EndTag(close)], w2) == Commit(Service(Trim(t), Trim(u)));
    RunAppend(opening, fields, w);
    RunAppend(opening + fields, [EndTag(close)], w);
  }

  /** The two fields of a block, in either order, fill both values. */
  lemma FieldsFill(typeTag: string, t: string, afterType: seq<Event>,
                   urlTag: string, u: string, afterURL: seq<Event>,
                   typeFirst: bool, w: Walker) returns (w': Walker)
    requires IsServiceTypeTag(typeTag) && IsControlURLTag(urlTag)
    requires Trim(t) != [] && Trim(u) != []
    requires Inert(afterType, Some(typeTag)) && Inert(afterURL, Some(urlTag))
    ensures var typePart := [StartTag(typeTag), Text(t)] + afterType;
      var urlPart := [StartTag(urlTag), Text(u)] + afterURL;
      Run(if typeFirst then typePart + urlPart else urlPart + typePart, w) == Continue(w')
    ensures w'.serviceType == Some(Trim(t)) && w'.controlURL == Some(Trim(u))
  {
    var typePart := [StartTag(typeTag), Text(t)] + afterType;
    var urlPart := [StartTag(urlTag), Text(u)] + afterURL;
    var first, second := if typeFirst then typePart else urlPart, if typeFirst then urlPart else typePart;
    var (tag1, x1, rest1) := if typeFirst then (typeTag, t, afterType) else (urlTag, u, afterURL);
    var (tag2, x2, rest2) := if typeFirst then (urlTag, u, afterURL) else (typeTag, t, afterType);
    FieldThenInert(tag1, x1, rest1, w);
    var w1 := Run(first, w).walker;
    FieldThenInert(tag2, x2, rest2, w1);
    w' := Run(second, w1).walker;
    RunAppend(first, second, w);
  }

  /** The first qualifying service block is the one resolved: the events
      before it committed nothing, and the events after it are never looked at. */
  lemma FirstQualifyingBlockResolved(before: seq<Event>, open: string, lead: seq<Event>,
                                     typeTag: string, t: string, afterType: seq<Event>,
                                     urlTag: string, u: string, afterURL: seq<Event>,
                                     typeFirst: bool, close: string, after: seq<Event>)
    requires Run(before, Fresh).Continue?
    requires IsServiceTypeTag(typeTag) && IsControlURLTag(urlTag) && IsServiceTag(close)
    requires Trim(t) != [] && Trim(u) != [] && IsSupportedType(Trim(t))
    requires Inert(lead, Some(open)) && Inert(afterType, Some(typeTag)) && Inert(afterURL, Some(urlTag))
    ensures ParseDescription(before + ServiceBlock(open, lead, typeTag, t, afterType, urlTag, u, afterURL, typeFirst, close) + after)
         == Some(Service(Trim(t), Trim(u)))
  {
    var block := ServiceBlock(open, lead, typeTag, t, afterType, urlTag, u, afterURL, typeFirst, close);
    ServiceBlockCommits(Run(before, Fresh).walker, open, lead, typeTag, t, afterType, urlTag, u, afterURL, typeFirst, close);
    RunAppend(before, block, Fresh);
    RunAppend(before + block, after, Fresh);
  }
}
