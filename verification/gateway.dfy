/** The `Gateway` class: construction from an SSDP response (header scan,
    description walk, control URL normalisation) and the public operations
    `getExternalIP`, `openPort`, `closePort` and `isMapped`. The description
    fetch and every SOAP round trip are parameters. */
module Gateway {
  import opened Results
  import opened JavaString
  import opened Xml
  import Ssdp
  import Description
  import Soap

  /** A resolved gateway. Both the service type and the absolute control URL
      are always present: a partly resolved gateway is never built. The two
      addresses are kept as the strings `getHostAddress()` gives. */
  datatype Endpoint = Endpoint(
    localAddress: string,
    gatewayAddress: string,
    serviceType: string,
    controlURL: string)

  // ------------------------------------------------------- construction

  /** `url` is `location` up to its first '/' at index 7 or later (just
      past "http://"), then `controlURL` with a '/' put in front when it
      has none. */
  predicate Normalised(url: string, location: string, controlURL: string) {
    && IndexOf(location, '/', 7).Some?
    && var slash := IndexOf(location, '/', 7).value;
    && 7 <= slash < |url|
    && url[..slash] == location[..slash]
    && url[slash] == '/'
    && (StartsWith(controlURL, "/") ==> url[slash..] == controlURL)
    && (!StartsWith(controlURL, "/") ==> url[slash + 1..] == controlURL)
  }

  /** The control URL made absolute against the location; none when the
      location has no '/' at index 7 or later. */
  function ResolveControlURL(location: string, controlURL: string): (r: Option<string>)
    ensures r.None? <==> forall k :: 7 <= k < |location| ==> location[k] != '/'
    ensures r.Some? ==> Normalised(r.value, location, controlURL)
  {
    match IndexOf(location, '/', 7)
    case None => None
    case Some(slash) =>
      var base := location[..slash];
      var path := if StartsWith(controlURL, "/") then controlURL else "/" + controlURL;
      var r := base + path;
      assert r[slash..] == path;
      Some(r)
  }

  /** The normalisation of a typical description location: the path of
      the description is replaced by the control URL. */
  lemma ResolveExample()
    ensures ResolveControlURL("http://192.168.1.1:5431/desc.xml", "ctl/IPConn")
         == Some("http://192.168.1.1:5431/ctl/IPConn")
  {
    var location := "http://192.168.1.1:5431/desc.xml";
    assert IndexOf(location, '/', 7) == Some(23) by {
      assert location[23] == '/';
      assert forall k :: 7 <= k < 23 ==> location[k] != '/';
    }
    assert !StartsWith("ctl/IPConn", "/") by {
      assert "ctl/IPConn"[0] == 'c';
    }
    assert location[..23] + ("/" + "ctl/IPConn") == "http://192.168.1.1:5431/ctl/IPConn";
  }

  /** The search starts at index 7 whatever the scheme, so for an https
      location it stops at the second slash of "https://" and the host is
      lost. */
  lemma ResolveHttpsLocation()
    ensures ResolveControlURL("https://h/d.xml", "ctl") == Some("https://ctl")
  {
    var location := "https://h/d.xml";
    assert location[7] == '/';
    assert IndexOf(location, '/', 7) == Some(7);
    assert "ctl"[0] == 'c';
    assert !(StartsWith("ctl", "/"));
    assert location[..7] + ("/" + "ctl") == "https://ctl";
  }

  /** The constructor once the location and the description events are
      known: the first qualifying service, its control URL made absolute. */
  function Resolve(location: string, events: seq<Event>, localAddress: string, gatewayAddress: string): (r: Result<Endpoint>)
    ensures r.Ok? <==>
      && Description.ParseDescription(events).Some?
      && exists k :: 7 <= k < |location| && location[k] == '/'
    ensures r.Ok? ==>
      && r.value.localAddress == localAddress
      && r.value.gatewayAddress == gatewayAddress
      && r.value.serviceType == Description.ParseDescription(events).value.serviceType
      && Description.IsSupportedType(r.value.serviceType)
      && Normalised(r.value.controlURL, location, Description.ParseDescription(events).value.controlURL)
  {
    match Description.ParseDescription(events)
    case None => Failed
    case Some(service) =>
      match ResolveControlURL(location, service.controlURL)
      case None => Failed
      case Some(url) => Ok(Endpoint(localAddress, gatewayAddress, service.serviceType, url))
  }

  /** The gateway constructor. It succeeds exactly when the SSDP response
      has a usable Location, the description behind it can be fetched and
      names a supported service, and the location has a '/' at index 7 or
      later. The gateway then keeps both addresses and the service's type,
      with its control URL made absolute against the location. */
  function Discover(response: string, localAddress: string, gatewayAddress: string,
                    fetch: string -> Result<seq<Event>>): (r: Result<Endpoint>)
    ensures r.Ok? <==>
      && Ssdp.FindLocation(response).Ok?
      && fetch(Ssdp.FindLocation(response).value).Ok?
      && Description.ParseDescription(fetch(Ssdp.FindLocation(response).value).value).Some?
      && exists k :: 7 <= k < |Ssdp.FindLocation(response).value| && Ssdp.FindLocation(response).value[k] == '/'
    ensures r.Ok? ==>
      && r.value.localAddress == localAddress
      && r.value.gatewayAddress == gatewayAddress
      && Description.IsSupportedType(r.value.serviceType)
      && r.value.serviceType == Description.ParseDescription(fetch(Ssdp.FindLocation(response).value).value).value.serviceType
      && Normalised(r.value.controlURL, Ssdp.FindLocation(response).value,
                    Description.ParseDescription(fetch(Ssdp.FindLocation(response).value).value).value.controlURL)
  {
    match Ssdp.FindLocation(response)
    case Failed => Failed
    case Ok(location) =>
      match fetch(location)
      case Failed => Failed
      case Ok(events) => Resolve(location, events, localAddress, gatewayAddress)
  }

  // ----------------------------------------------------------- arguments

  predicate ValidPort(port: int) {
    0 <= port <= 65535
  }

  function ProtocolName(udp: bool): string {
    if udp then "UDP" else "TCP"
  }

  const AddPortMappingKeys: set<string> := {
    "NewRemoteHost", "NewProtocol", "NewInternalClient", "NewExternalPort",
    "NewInternalPort", "NewEnabled", "NewPortMappingDescription", "NewLeaseDuration"}

  const PortMappingEntryKeys: set<string> := {"NewRemoteHost", "NewProtocol", "NewExternalPort"}

  /** The argument map of `openPort`: the port goes out in decimal as both
      the external and the internal port, mapped to the local address, for
      any remote host, enabled, with no lease limit. */
  function AddPortMappingArgs(localAddress: string, port: nat, udp: bool, description: string): (m: map<string, string>)
    ensures m.Keys == AddPortMappingKeys
    ensures m["NewRemoteHost"] == "" && m["NewProtocol"] == ProtocolName(udp)
    ensures m["NewInternalClient"] == localAddress
    ensures IsCanonicalDecimal(m["NewExternalPort"]) && ParseDecimal(m["NewExternalPort"]) == port
    ensures m["NewInternalPort"] == m["NewExternalPort"]
    ensures m["NewEnabled"] == "1" && m["NewLeaseDuration"] == "0"
    ensures m["NewPortMappingDescription"] == description
  {
    map[
      "NewRemoteHost" := "",
      "NewProtocol" := ProtocolName(udp),
      "NewInternalClient" := localAddress,
      "NewExternalPort" := Decimal(port),
      "NewInternalPort" := Decimal(port),
      "NewEnabled" := "1",
      "NewPortMappingDescription" := description,
      "NewLeaseDuration" := "0"]
  }

  /** The argument map of `closePort` and `isMapped`: which mapping is meant. */
  function PortMappingEntryArgs(port: nat, udp: bool): (m: map<string, string>)
    ensures m.Keys == PortMappingEntryKeys
    ensures m["NewRemoteHost"] == "" && m["NewProtocol"] == ProtocolName(udp)
    ensures IsCanonicalDecimal(m["NewExternalPort"]) && ParseDecimal(m["NewExternalPort"]) == port
  {
    map["NewRemoteHost" := "", "NewProtocol" := ProtocolName(udp), "NewExternalPort" := Decimal(port)]
  }

  /** `order` lists every key exactly once: one iteration order of a map
      with these keys. `command` in Gateway.java iterates a `HashMap`, whose order is not
      specified, so every operation is stated for any such order. */
  predicate IsOrderOf(order: seq<string>, keys: set<string>) {
    && (forall i :: 0 <= i < |order| ==> order[i] in keys)
    && (forall k :: k in keys ==> k in order)
    && (forall i, j :: 0 <= i < j < |order| ==> order[i] != order[j])
  }

  /** The argument map written out in the given iteration order. */
  function Arrange(args: map<string, string>, order: seq<string>): Soap.Params
    requires IsOrderOf(order, args.Keys)
  {
    seq(|order|, i requires 0 <= i < |order| => (order[i], args[order[i]]))
  }

  /** Every entry of the map is written exactly once, with its value, in
      the iteration order. */
  lemma ArrangeListsEachEntryOnce(args: map<string, string>, order: seq<string>)
    requires IsOrderOf(order, args.Keys)
    ensures var ps := Arrange(args, order);
      |ps| == |order| && forall i :: 0 <= i < |ps| ==> ps[i].0 in args && ps[i].1 == args[ps[i].0]
    ensures var ps := Arrange(args, order);
      forall i :: 0 <= i < |ps| ==> ps[i].0 == order[i]
    ensures var ps := Arrange(args, order);
      forall k :: k in args ==> exists i :: 0 <= i < |ps| && ps[i].0 == k
    ensures var ps := Arrange(args, order);
      forall i, j :: 0 <= i < j < |ps| ==> ps[i].0 != ps[j].0
  {
    var ps := Arrange(args, order);
    forall k | k in args ensures exists i :: 0 <= i < |ps| && ps[i].0 == k {
      var i :| 0 <= i < |order| && order[i] == k;
      assert ps[i].0 == k;
    }
  }

  /** The request `command(action, args)` sends for the given order. */
  function ActionRequest(gw: Endpoint, action: string, args: map<string, string>, order: seq<string>): Soap.HttpRequest
    requires IsOrderOf(order, args.Keys)
  {
    Soap.Request(gw.controlURL, gw.serviceType, action, Arrange(args, order))
  }

  /** An action request goes to the gateway's control URL and names its
      service type and the action; when no key holds a '>' and no value a
      '<', its envelope reads back as exactly the map's entries, in order. */
  lemma ActionRequestReadsBack(gw: Endpoint, action: string, args: map<string, string>, order: seq<string>)
    requires IsOrderOf(order, args.Keys)
    ensures ActionRequest(gw, action, args, order).url == gw.controlURL
    ensures '#' !in gw.serviceType ==>
      Soap.ParseSoapAction(ActionRequest(gw, action, args, order).soapAction) == Some((gw.serviceType, action))
    ensures (forall k :: k in args ==> '>' !in k && '<' !in args[k]) ==>
      Soap.ParseEnvelope(gw.serviceType, action, ActionRequest(gw, action, args, order).body) == Some(Arrange(args, order))
  {
    var ps := Arrange(args, order);
    Soap.RequestReadsBack(gw.controlURL, gw.serviceType, action, ps);
    if forall k :: k in args ==> '>' !in k && '<' !in args[k] {
      ArrangeListsEachEntryOnce(args, order);
      assert Soap.SafeParams(ps);
    }
  }

  function AddPortMappingRequest(gw: Endpoint, port: nat, udp: bool, description: string, order: seq<string>): Soap.HttpRequest
    requires IsOrderOf(order, AddPortMappingKeys)
  {
    ActionRequest(gw, "AddPortMapping", AddPortMappingArgs(gw.localAddress, port, udp, description), order)
  }

  function DeletePortMappingRequest(gw: Endpoint, port: nat, udp: bool, order: seq<string>): Soap.HttpRequest
    requires IsOrderOf(order, PortMappingEntryKeys)
  {
    ActionRequest(gw, "DeletePortMapping", PortMappingEntryArgs(port, udp), order)
  }

  function GetSpecificPortMappingEntryRequest(gw: Endpoint, port: nat, udp: bool, order: seq<string>): Soap.HttpRequest
    requires IsOrderOf(order, PortMappingEntryKeys)
  {
    ActionRequest(gw, "GetSpecificPortMappingEntry", PortMappingEntryArgs(port, udp), order)
  }

  function GetExternalIPAddressRequest(gw: Endpoint): Soap.HttpRequest {
    Soap.Request(gw.controlURL, gw.serviceType, "GetExternalIPAddress", [])
  }

  // ----------------------------------------------------------- operations

  /** Some text of the response was stored under `key`. */
  predicate Reported(events: seq<Event>, key: string) {
    exists i :: 0 <= i < |events| && Soap.StoresAt(events, i, key)
  }

  /** A flattened response has a key exactly when some text was stored
      under it. */
  lemma KeyIffReported(events: seq<Event>, key: string)
    ensures key in Soap.Flatten(events) <==> Reported(events, key)
  {
    assert Lookup(Soap.Flatten(events), key) == Soap.LastStored(events, |events|, key);
  }

  /** `getExternalIP`: the last text the response held in a
      `NewExternalIPAddress` element; none when the call failed or the
      response has no such text. */
  function GetExternalIP(gw: Endpoint, transport: Soap.HttpRequest -> Result<seq<Event>>): (r: Option<string>)
    ensures var reply := transport(GetExternalIPAddressRequest(gw));
      r == if reply.Ok? then Soap.LastStored(reply.value, |reply.value|, "NewExternalIPAddress") else None
  {
    match Soap.Command(gw.controlURL, gw.serviceType, "GetExternalIPAddress", [], transport)
    case Failed => None
    case Ok(fields) => Lookup(fields, "NewExternalIPAddress")
  }

  /** `openPort`: an out-of-range port is an illegal argument and nothing
      is sent; otherwise true exactly when the call succeeded and the
      response reported no `errorCode`. */
  function OpenPort(gw: Endpoint, port: int, udp: bool, description: string, order: seq<string>,
                    transport: Soap.HttpRequest -> Result<seq<Event>>): (r: Checked<bool>)
    requires IsOrderOf(order, AddPortMappingKeys)
    ensures r.IllegalArgument? <==> !ValidPort(port)
    ensures r.Returned? ==>
      var reply := transport(AddPortMappingRequest(gw, port, udp, description, order));
      (r.value <==> reply.Ok? && !Reported(reply.value, "errorCode"))
  {
    if !ValidPort(port) then IllegalArgument
    else
      var args := AddPortMappingArgs(gw.localAddress, port, udp, description);
      match Soap.Command(gw.controlURL, gw.serviceType, "AddPortMapping", Arrange(args, order), transport)
      case Failed => Returned(false)
      case Ok(fields) =>
        KeyIffReported(transport(AddPortMappingRequest(gw, port, udp, description, order)).value, "errorCode");
        Returned("errorCode" !in fields)
  }

  /** `closePort`: an out-of-range port is an illegal argument; otherwise
      true exactly when the call went through, whatever the response says. */
  function ClosePort(gw: Endpoint, port: int, udp: bool, order: seq<string>,
                     transport: Soap.HttpRequest -> Result<seq<Event>>): (r: Checked<bool>)
    requires IsOrderOf(order, PortMappingEntryKeys)
    ensures r.IllegalArgument? <==> !ValidPort(port)
    ensures r.Returned? ==>
      (r.value <==> transport(DeletePortMappingRequest(gw, port, udp, order)).Ok?)
  {
    if !ValidPort(port) then IllegalArgument
    else
      var args := PortMappingEntryArgs(port, udp);
      match Soap.Command(gw.controlURL, gw.serviceType, "DeletePortMapping", Arrange(args, order), transport)
      case Failed => Returned(false)
      case Ok(_) => Returned(true)
  }

  /** `isMapped`: an out-of-range port is an illegal argument; otherwise
      true exactly when the call succeeded, the response reported no
      `errorCode`, and it reported a `NewInternalPort`. */
  function IsMapped(gw: Endpoint, port: int, udp: bool, order: seq<string>,
                    transport: Soap.HttpRequest -> Result<seq<Event>>): (r: Checked<bool>)
    requires IsOrderOf(order, PortMappingEntryKeys)
    ensures r.IllegalArgument? <==> !ValidPort(port)
    ensures r.Returned? ==>
      var reply := transport(GetSpecificPortMappingEntryRequest(gw, port, udp, order));
      (r.value <==> reply.Ok? && !Reported(reply.value, "errorCode") && Reported(reply.value, "NewInternalPort"))
  {
    if !ValidPort(port) then IllegalArgument
    else
      var args := PortMappingEntryArgs(port, udp);
      match Soap.Command(gw.controlURL, gw.serviceType, "GetSpecificPortMappingEntry", Arrange(args, order), transport)
      case Failed => Returned(false)
      case Ok(fields) =>
        var events := transport(GetSpecificPortMappingEntryRequest(gw, port, udp, order)).value;
        KeyIffReported(events, "errorCode");
        KeyIffReported(events, "NewInternalPort");
        Returned("errorCode" !in fields && "NewInternalPort" in fields)
  }

  /** The asymmetry between the operations: when every call goes through
      but the gateway answers with an `errorCode`, `openPort` and
      `isMapped` report false while `closePort` reports true. */
  lemma ErrorCodeAsymmetry(gw: Endpoint, port: int, udp: bool, description: string,
                           addOrder: seq<string>, entryOrder: seq<string>, events: seq<Event>)
    requires ValidPort(port)
    requires IsOrderOf(addOrder, AddPortMappingKeys) && IsOrderOf(entryOrder, PortMappingEntryKeys)
    requires Reported(events, "errorCode")
    ensures var transport := (req: Soap.HttpRequest) => Ok(events);
      && OpenPort(gw, port, udp, description, addOrder, transport) == Returned(false)
      && ClosePort(gw, port, udp, entryOrder, transport) == Returned(true)
      && IsMapped(gw, port, udp, entryOrder, transport) == Returned(false)
  {
  }

  /** When the gateway answers with an HTTP error status (as UPnP error
      replies usually do), the round trip fails, and all three operations
      report false. */
  lemma FailedCallsAllFalse(gw: Endpoint, port: int, udp: bool, description: string,
                            addOrder: seq<string>, entryOrder: seq<string>)
    requires ValidPort(port)
    requires IsOrderOf(addOrder, AddPortMappingKeys) && IsOrderOf(entryOrder, PortMappingEntryKeys)
    ensures var transport := (req: Soap.HttpRequest) => Failed;
      && OpenPort(gw, port, udp, description, addOrder, transport) == Returned(false)
      && ClosePort(gw, port, udp, entryOrder, transport) == Returned(false)
      && IsMapped(gw, port, udp, entryOrder, transport) == Returned(false)
  {
  }
}
