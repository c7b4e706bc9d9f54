/** A worked instance of the description walk on a `<service>` element
    laid out the way devices write it. */
module DescriptionExample {
  import opened Results
  import opened JavaString
  import opened Xml
  import opened Description

  /** A short type naming a WAN IP connection. */
  const WanType := "x:WANIPConnection:1"

  lemma TypeTrimmed()
    ensures Trim(WanType) == WanType
  {
    var t := WanType;
    assert TrimStart(t, 0) == 0;
    assert TrimEnd(t, 0, |t|) == |t|;
    assert t[0..|t|] == t;
  }

  lemma TypeSupported()
    ensures IsSupportedType(WanType)
  {
    var l := Lower(WanType);
    assert l[1..18] == ":wanipconnection:";
    assert OccursAt(l, ":wanipconnection:", 1);
  }

  lemma URLFacts()
    ensures Trim("/ctl") == "/ctl"
  {
    assert TrimStart("/ctl", 0) == 0;
    assert TrimEnd("/ctl", 0, 4) == 4;
    assert "/ctl"[0..4] == "/ctl";
  }

  lemma TagFacts()
    ensures IsServiceTag("service") && IsServiceTypeTag("serviceType") && IsControlURLTag("controlURL")
    ensures !IsServiceTag("serviceType") && !IsServiceTag("serviceId") && !IsServiceTag("controlURL")
    ensures !IsServiceTypeTag("serviceId") && !IsControlURLTag("serviceId")
  {
    assert |Lower("service")| == 7;
    assert |Lower("serviceType")| == 11;
    assert |Lower("controlURL")| == 10;
  }

  lemma InertFacts()
    ensures Inert([Text("\n ")], Some("service"))
    ensures Inert([EndTag("serviceType"), Text("\n "), StartTag("serviceId"), Text("id:WANIPConn1"), EndTag("serviceId")], Some("serviceType"))
    ensures Inert([EndTag("controlURL")], Some("controlURL"))
  {
    TagFacts();
    TrimEmptyIff("\n ");
    var a := [EndTag("serviceType"), Text("\n "), StartTag("serviceId"), Text("id:WANIPConn1"), EndTag("serviceId")];
    assert Inert(a[4..], Some("serviceId"));
    assert Inert(a[3..], Some("serviceId"));
    assert Inert(a[2..], None);
    assert Inert(a[1..], None);
  }

  /** A `<service>` element as a device writes it: whitespace between
      the children, and a `serviceId` child between the type and the URL. */
  const Realistic: seq<Event> :=
    [StartTag("service"), Text("\n "),
     StartTag("serviceType"), Text(WanType), EndTag("serviceType"), Text("\n "),
     StartTag("serviceId"), Text("id:WANIPConn1"), EndTag("serviceId"),
     StartTag("controlURL"), Text("/ctl"), EndTag("controlURL"),
     EndTag("service")]

  lemma RealisticLayout()
    ensures Realistic == ServiceBlock("service", [Text("\n ")],
      "serviceType", WanType, [EndTag("serviceType"), Text("\n "), StartTag("serviceId"), Text("id:WANIPConn1"), EndTag("serviceId")],
      "controlURL", "/ctl", [EndTag("controlURL")], true, "service")
  {
  }

  /** The walk picks the service's type and control URL out of the
      realistic element, skipping the whitespace and the `serviceId`. */
  lemma RealisticBlock()
    ensures ParseDescription(Realistic) == Some(Service(WanType, "/ctl"))
  {
    TypeTrimmed();
    TypeSupported();
    URLFacts();
    TagFacts();
    InertFacts();
    RealisticLayout();
    FirstQualifyingBlockResolved([], "service", [Text("\n ")],
      "serviceType", WanType, [EndTag("serviceType"), Text("\n "), StartTag("serviceId"), Text("id:WANIPConn1"), EndTag("serviceId")],
      "controlURL", "/ctl", [EndTag("controlURL")], true, "service", []);
    assert [] + Realistic + [] == Realistic;
  }
}
