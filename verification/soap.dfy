/** The SOAP action call (`command`): the request envelope and headers, and
    the flattening of the response into a name-to-text map. The HTTP round
    trip is a parameter: it receives the request and yields either the
    response's parser events or a failure. */
module Soap {
  import opened Results
  import opened JavaString
  import opened Xml

  /** The action arguments in the order they are written to the envelope. */
  type Params = seq<(string, string)>

  const EnvelopeHead: string :=
    "<?xml version=\"1.0\"?>"
    + "<SOAP-ENV:Envelope xmlns:SOAP-ENV=\"http://schemas.xmlsoap.org/soap/envelope/\""
    + " SOAP-ENV:encodingStyle=\"http://schemas.xmlsoap.org/soap/encoding/\">"
    + "<SOAP-ENV:Body>"

  const EnvelopeTail: string := "</SOAP-ENV:Body></SOAP-ENV:Envelope>"

  /** Everything before the first argument: the fixed head and the opening
      `m:action` element bound to the service type namespace. */
  function Opening(serviceType: string, action: string): string {
    EnvelopeHead + "<m:" + action + " xmlns:m=\"" + serviceType + "\">"
  }

  /** Everything after the last argument. */
  function Closing(action: string): string {
    "</m:" + action + ">" + EnvelopeTail
  }

  /** One argument as `<key>value</key>`, the value verbatim. */
  function Element(key: string, value: string): string {
    "<" + key + ">" + value + "</" + key + ">"
  }

  function ElementsXml(ps: Params): string {
    if ps == [] then "" else Element(ps[0].0, ps[0].1) + ElementsXml(ps[1..])
  }

  /** Arguments that read back unambiguously: no '>' in a name and no '<'
      in a value. `command` in Gateway.java escapes nothing; the callers pass addresses,
      digits, protocol names and the application's description. */
  predicate SafeParams(ps: Params) {
    forall i :: 0 <= i < |ps| ==> '>' !in ps[i].0 && '<' !in ps[i].1
  }

  /** Cuts `s` at its first `c`: what comes before and what comes after. */
  function SplitAt(s: string, c: char): (r: Option<(string, string)>)
    ensures r.Some? ==> |r.value.1| < |s|
  {
    if s == [] then None
    else if s[0] == c then Some(([], s[1..]))
    else
      match SplitAt(s[1..], c)
      case None => None
      case Some((before, after)) => Some(([s[0]] + before, after))
  }

  /** The cut is at the first `c`: in `a + [c] + b` with no `c` in `a`, it
      falls right after `a`. */
  lemma {:induction false} SplitAtFirst(a: string, c: char, b: string)
    requires c !in a
    ensures SplitAt(a + [c] + b, c) == Some((a, b))
  {
    if a != [] {
      assert (a + [c] + b)[1..] == a[1..] + [c] + b;
      SplitAtFirst(a[1..], c, b);
      assert [a[0]] + a[1..] == a;
    }
  }

  /** Reads the leading `<key>value</key>` element of `s`: the key, the
      value and what follows the element. */
  function SplitElement(s: string): (r: Option<(string, string, string)>)
    ensures r.Some? ==> |r.value.2| < |s|
  {
    if s == [] || s[0] != '<' then None
    else
      match SplitAt(s[1..], '>')
      case None => None
      case Some((key, afterKey)) =>
        match SplitAt(afterKey, '<')
        case None => None
        case Some((value, afterValue)) =>
          var close := "/" + key + ">";
          if |close| <= |afterValue| && afterValue[..|close|] == close then
            Some((key, value, afterValue[|close|..]))
          else
            None
  }

  /** Reads a run of `<key>value</key>` elements back into arguments. */
  function ParseElements(s: string): Option<Params>
    decreases |s|
  {
    if s == [] then Some([])
    else
      match SplitElement(s)
      case None => None
      case Some((key, value, after)) =>
        match ParseElements(after)
        case None => None
        case Some(rest) => Some([(key, value)] + rest)
  }

  /** Reads the arguments back out of an envelope for a known action. */
  function ParseEnvelope(serviceType: string, action: string, body: string): Option<Params> {
    var open := Opening(serviceType, action);
    var close := Closing(action);
    if |open| + |close| <= |body| && StartsWith(body, open) && body[|body| - |close|..] == close then
      ParseElements(body[|open|..|body| - |close|])
    else
      None
  }

  /** An element written by `Element` splits back into its key, its value
      and whatever followed it. */
  lemma SplitOneElement(key: string, value: string, rest: string)
    requires '>' !in key && '<' !in value
    ensures SplitElement(Element(key, value) + rest) == Some((key, value, rest))
  {
    var s := Element(key, value) + rest;
    var close := "/" + key + ">";
    var afterValue := close + rest;
    var afterKey := value + "<" + afterValue;
    assert s[1..] == key + ">" + afterKey;
    SplitAtFirst(key, '>', afterKey);
    SplitAtFirst(value, '<', afterValue);
    assert afterValue[..|close|] == close;
    assert afterValue[|close|..] == rest;
  }

  /** Reading one element off the front of a run. */
  lemma ParseOneElement(key: string, value: string, rest: string)
    requires '>' !in key && '<' !in value
    ensures ParseElements(Element(key, value) + rest) ==
      match ParseElements(rest)
      case None => None
      case Some(ps) => Some([(key, value)] + ps)
  {
    SplitOneElement(key, value, rest);
  }

  /** Writing arguments as elements and reading them back is the identity. */
  lemma {:induction false} ElementsRoundTrip(ps: Params)
    requires SafeParams(ps)
    ensures ParseElements(ElementsXml(ps)) == Some(ps)
  {
    if ps != [] {
      assert SafeParams(ps[1..]) by {
        forall i | 0 <= i < |ps[1..]| ensures '>' !in ps[1..][i].0 && '<' !in ps[1..][i].1 {
          assert ps[1..][i] == ps[i + 1];
        }
      }
      ElementsRoundTrip(ps[1..]);
      assert ElementsXml(ps) == Element(ps[0].0, ps[0].1) + ElementsXml(ps[1..]);
      ParseOneElement(ps[0].0, ps[0].1, ElementsXml(ps[1..]));
      assert [(ps[0].0, ps[0].1)] + ps[1..] == ps;
    }
  }

  /** The request envelope of `command`: the fixed head, `<m:action
      xmlns:m="serviceType">`, one element per argument in the given order
      with the value verbatim, `</m:action>` and the fixed tail. */
  function Envelope(serviceType: string, action: string, ps: Params): string {
    Opening(serviceType, action) + ElementsXml(ps) + Closing(action)
  }

  /** The envelope opens with the head and the action element, closes with
      the action's end tag and the tail, and the arguments can be read back
      out of it, in order. */
  lemma EnvelopeReadsBack(serviceType: string, action: string, ps: Params)
    ensures StartsWith(Envelope(serviceType, action, ps), Opening(serviceType, action))
    ensures var r := Envelope(serviceType, action, ps);
      |r| >= |Closing(action)| && r[|r| - |Closing(action)|..] == Closing(action)
    ensures SafeParams(ps) ==> ParseEnvelope(serviceType, action, Envelope(serviceType, action, ps)) == Some(ps)
  {
    var open := Opening(serviceType, action);
    var close := Closing(action);
    var middle := ElementsXml(ps);
    var r := open + middle + close;
    assert r[..|open|] == open;
    assert r[|r| - |close|..] == close;
    assert r[|open|..|r| - |close|] == middle;
    if SafeParams(ps) { ElementsRoundTrip(ps); }
  }

  // ------------------------------------------------------------- request

  /** A POST to the control URL with the four headers `command` sets. */
  datatype HttpRequest = HttpRequest(
    verb: string,
    url: string,
    contentType: string,
    soapAction: string,
    connection: string,
    contentLength: string,
    body: string)

  /** `"serviceType#action"`, quotes included. */
  function SoapAction(serviceType: string, action: string): string {
    "\"" + serviceType + "#" + action + "\""
  }

  /** Splits a quoted `SOAPAction` value at its first '#'. */
  function ParseSoapAction(h: string): Option<(string, string)> {
    if |h| >= 2 && h[0] == '"' && h[|h| - 1] == '"' then
      var inner := h[1..|h| - 1];
      match IndexOf(inner, '#', 0)
      case None => None
      case Some(k) => Some((inner[..k], inner[k + 1..]))
    else
      None
  }

  /** The `SOAPAction` value names the service type and the action, and
      reads back as both when the type has no '#'. */
  lemma SoapActionRoundTrip(serviceType: string, action: string)
    requires '#' !in serviceType
    ensures ParseSoapAction(SoapAction(serviceType, action)) == Some((serviceType, action))
  {
    var h := SoapAction(serviceType, action);
    var inner := h[1..|h| - 1];
    assert inner == serviceType + "#" + action;
    forall m | 0 <= m < |serviceType| ensures inner[m] != '#' {
      assert inner[m] == serviceType[m];
    }
    assert inner[|serviceType|] == '#';
    assert IndexOf(inner, '#', 0) == Some(|serviceType|);
    assert inner[..|serviceType|] == serviceType;
    assert inner[|serviceType| + 1..] == action;
  }

  /** The POST `command` sends to the control URL. */
  function Request(controlURL: string, serviceType: string, action: string, ps: Params): HttpRequest {
    var body := Envelope(serviceType, action, ps);
    HttpRequest("POST", controlURL, "text/xml", SoapAction(serviceType, action), "Close",
                Decimal(Utf8Length(body)), body)
  }

  /** The request is a POST of `text/xml` with `Connection: Close`; its
      `SOAPAction` names the service type and the action; its Content-Length
      is the byte size of the envelope it carries; and the arguments read
      back out of that envelope. */
  lemma RequestReadsBack(controlURL: string, serviceType: string, action: string, ps: Params)
    ensures var r := Request(controlURL, serviceType, action, ps);
      r.verb == "POST" && r.url == controlURL && r.contentType == "text/xml" && r.connection == "Close"
    ensures '#' !in serviceType ==>
      ParseSoapAction(Request(controlURL, serviceType, action, ps).soapAction) == Some((serviceType, action))
    // Content-Length counts the body's bytes, which is its length when ASCII
    ensures var r := Request(controlURL, serviceType, action, ps);
      IsCanonicalDecimal(r.contentLength) && ParseDecimal(r.contentLength) == Utf8Length(r.body)
    ensures var r := Request(controlURL, serviceType, action, ps);
      IsAscii(r.body) ==> ParseDecimal(r.contentLength) == |r.body|
    ensures SafeParams(ps) ==>
      ParseEnvelope(serviceType, action, Request(controlURL, serviceType, action, ps).body) == Some(ps)
  {
    var body := Envelope(serviceType, action, ps);
    if '#' !in serviceType { SoapActionRoundTrip(serviceType, action); }
    Utf8LengthBounds(body);
    EnvelopeReadsBack(serviceType, action, ps);
  }

  // ------------------------------------------------------------ response

  /** The tag the response loop holds as it reaches event `i`: the name of
      the latest start tag, unless an end tag came after it. */
  function TagBefore(events: seq<Event>, i: nat): Option<string>
    requires i <= |events|
  {
    if i == 0 then None
    else
      match events[i - 1]
      case StartTag(name) => Some(name)
      case EndTag(_) => None
      case Text(_) => TagBefore(events, i - 1)
  }

  /** Event `i` is text that the loop stores under `key`. */
  predicate StoresAt(events: seq<Event>, i: int, key: string) {
    0 <= i < |events| && events[i].Text? && TagBefore(events, i) == Some(key)
  }

  /** The text stored last under `key` among the first `n` events. */
  function LastStored(events: seq<Event>, n: nat, key: string): (r: Option<string>)
    requires n <= |events|
    ensures r.None? <==> forall i :: 0 <= i < n ==> !StoresAt(events, i, key)
    ensures r.Some? ==> exists i ::
      (0 <= i < n && StoresAt(events, i, key) && events[i].text == r.value
       && forall j :: i < j < n ==> !StoresAt(events, j, key))
  {
    if n == 0 then None
    else if StoresAt(events, n - 1, key) then Some(events[n - 1].text)
    else LastStored(events, n - 1, key)
  }

  /** The response loop from event `i` on. */
  function FlattenFrom(events: seq<Event>, i: nat, current: Option<string>, fields: map<string, string>): map<string, string>
    requires i <= |events|
    decreases |events| - i
  {
    if i == |events| then fields
    else
      match events[i]
      case StartTag(name) => FlattenFrom(events, i + 1, Some(name), fields)
      case Text(text) =>
        FlattenFrom(events, i + 1, current, if current.Some? then fields[current.value := text] else fields)
      case EndTag(_) => FlattenFrom(events, i + 1, None, fields)
  }

  lemma {:induction false} FlattenFromLastWins(events: seq<Event>, i: nat, current: Option<string>, fields: map<string, string>)
    requires i <= |events|
    requires current == TagBefore(events, i)
    requires forall k :: Lookup(fields, k) == LastStored(events, i, k)
    ensures forall k :: Lookup(FlattenFrom(events, i, current, fields), k) == LastStored(events, |events|, k)
    decreases |events| - i
  {
    if i < |events| {
      var fields' := if events[i].Text? && current.Some? then fields[current.value := events[i].text] else fields;
      forall k ensures Lookup(fields', k) == LastStored(events, i + 1, k) {
        assert StoresAt(events, i, k) <==> events[i].Text? && current == Some(k);
      }
      FlattenFromLastWins(events, i + 1, TagBefore(events, i + 1), fields');
    }
  }

  /** The SOAP response as a map: a key for each tag that directly held
      text, mapped to the LAST text stored under it, untrimmed; text after
      an end tag is dropped. */
  function Flatten(events: seq<Event>): (fields: map<string, string>)
    ensures forall k :: Lookup(fields, k) == LastStored(events, |events|, k)
  {
    FlattenFromLastWins(events, 0, None, map[]);
    FlattenFrom(events, 0, None, map[])
  }

  /** Text right after an end tag is never stored. */
  lemma TextAfterEndTagDropped(events: seq<Event>, i: nat, key: string)
    requires 0 < i < |events| && events[i - 1].EndTag?
    ensures !StoresAt(events, i, key)
  {
  }

  /** `command`: post the request, then flatten the response. Any failure
      of the round trip (connection, HTTP status, or a parse error in the
      response, which makes the parser throw) is one uniform failure
      reported by `transport`. */
  function Command(controlURL: string, serviceType: string, action: string, ps: Params,
                   transport: HttpRequest -> Result<seq<Event>>): (r: Result<map<string, string>>)
    ensures var reply := transport(Request(controlURL, serviceType, action, ps));
      && (r.Ok? <==> reply.Ok?)
      && (r.Ok? ==> forall k :: Lookup(r.value, k) == LastStored(reply.value, |reply.value|, k))
  {
    match transport(Request(controlURL, serviceType, action, ps))
    case Failed => Failed
    case Ok(events) => Ok(Flatten(events))
  }
}
