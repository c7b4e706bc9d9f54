# WaifUPnP gateway, modelled in Dafny

This project models the protocol core of WaifUPnP's `Gateway` class. That is
the small UPnP Internet Gateway Device client that finds a router's
WANIPConnection or WANPPPConnection service and asks it to open, close and
query port mappings. The model covers:

- the scan of an SSDP discovery response for its `LOCATION` header;
- the forward walk over the device description (`parseDescription`) that
  picks the first supported service and its control URL;
- making the control URL absolute against the location;
- the SOAP call (`command`): the envelope, the request headers, and the
  flattening of the response into a name-to-text map;
- the public operations `getExternalIP`, `openPort`, `closePort` and
  `isMapped`.

Everything is pure. The description fetch is a parameter
`fetch: string -> Result<seq<Event>>`. Every SOAP round trip is a parameter
`transport: HttpRequest -> Result<seq<Event>>`. An XML document is given as
the sequence of pull-parser events it produces (`Xml.Event`).

Modules:

- `Results`: `Option`, `Result`, and `Checked`. `Checked` is a value or an
  `IllegalArgumentException`.
- `JavaString`: the `java.lang.String` operations the code relies on, with
  their Java meaning:
  - `trim` strips every leading and trailing char up to U+0020;
  - `indexOf` yields -1 as `None`;
  - `contains`;
  - `toLowerCase` and `equalsIgnoreCase`;
  - `StringTokenizer` on `"\n"`;
  - `"" + n`;
  - the byte length of `getBytes()`.
- `Xml`: the parser events.
- `Ssdp`: the header scan of the constructor.
- `Description`: the `parseDescription` walk.
- `DescriptionExample`: the walk on a `<service>` element laid out the way
  devices write it.
- `Soap`: the envelope, the request, the response flattening and `command`.
- `Gateway`: construction, control URL normalisation, the argument maps and
  the four public operations.

## Model

All source paths are relative to the repository root.

| member | source | states |
|---|---|---|
| JavaString.Trim | WaifUPnP/src/main/java/com/netzarchitekten/upnp/Gateway.java:52 | `trim()` never lengthens a string; what it returns is empty or starts and ends with a char above U+0020 |
| JavaString.TrimFramed | WaifUPnP/src/main/java/com/netzarchitekten/upnp/Gateway.java:52 | what `trim()` keeps is a contiguous infix of its input, and every char it drops on either side is at most U+0020 |
| JavaString.TrimIdempotent | WaifUPnP/src/main/java/com/netzarchitekten/upnp/Gateway.java:112-113 | trimming an already trimmed value changes nothing, so the re-trim at commit time is harmless |
| JavaString.TrimEmptyIff | WaifUPnP/src/main/java/com/netzarchitekten/upnp/Gateway.java:53 | a line trims to the empty string exactly when every char in it is at most U+0020 (both directions) |
| JavaString.StartsWith | WaifUPnP/src/main/java/com/netzarchitekten/upnp/Gateway.java:53 |  `startsWith(prefix)`: the string is at least as long as the prefix and begins with it; used by `ClassifyTrimmed` and `ResolveControlURL`, whose contracts state its cases |
| JavaString.IndexOf | WaifUPnP/src/main/java/com/netzarchitekten/upnp/Gateway.java:75-76 | `indexOf(c, from)` is -1 exactly when no index at or after `from` holds `c`; otherwise it is the first such index |
| JavaString.Contains | WaifUPnP/src/main/java/com/netzarchitekten/upnp/Gateway.java:110-111 | `contains(sub)` holds exactly when `sub` occurs at some index |
| JavaString.LowerChar | WaifUPnP/src/main/java/com/netzarchitekten/upnp/Gateway.java:110 | `Character.toLowerCase` on one char: the result is never an upper-case letter; other chars are kept; an upper-case letter becomes its lower-case partner |
| JavaString.Lower | WaifUPnP/src/main/java/com/netzarchitekten/upnp/Gateway.java:110 | `toLowerCase()` keeps the length, leaves no upper-case ASCII letter, keeps every char that is not one, and replaces each upper-case letter by the lower-case letter at the same place in the alphabet |
| JavaString.LowerIdempotent | WaifUPnP/src/main/java/com/netzarchitekten/upnp/Gateway.java:110 | lower-casing an already lower-cased string changes nothing |
| JavaString.EqualsIgnoreCase | WaifUPnP/src/main/java/com/netzarchitekten/upnp/Gateway.java:101-108 | `equalsIgnoreCase`, taken as comparing both sides lower-cased; `EqualsIgnoreCaseByChars` relates it to the JDK's own definition |
| JavaString.EqualsIgnoreCaseByChars | WaifUPnP/src/main/java/com/netzarchitekten/upnp/Gateway.java:58 | `equalsIgnoreCase` holds exactly when the lengths agree and every char pair is equal, equal upper-cased, or equal upper- then lower-cased, as `regionMatches(true, ...)` compares them |
| JavaString.EqualsIgnoreCaseEquivalence | WaifUPnP/src/main/java/com/netzarchitekten/upnp/Gateway.java:101-108 | `equalsIgnoreCase` is reflexive, symmetric and transitive, so `"serviceType".equalsIgnoreCase(tag)` and `tag.equalsIgnoreCase("serviceType")` agree |
| JavaString.SplitLines | WaifUPnP/src/main/java/com/netzarchitekten/upnp/Gateway.java:50 | the pieces between newlines hold no newline and, joined back with "\n", give the input |
| JavaString.Tokens | WaifUPnP/src/main/java/com/netzarchitekten/upnp/Gateway.java:50-52 | the tokenizer yields only non-empty newline-free tokens, and exactly the non-empty pieces between newlines; their order is stated by `TokensCons` |
| JavaString.TokensOfLine | WaifUPnP/src/main/java/com/netzarchitekten/upnp/Gateway.java:50-52 | a newline-free text yields itself as its only token, or no token when it is empty |
| JavaString.TokensCons | WaifUPnP/src/main/java/com/netzarchitekten/upnp/Gateway.java:50-52 | the tokens of `a + "\n" + b`, with `a` newline-free, are `a` (skipped when empty) followed by the tokens of `b` in order; with `TokensOfLine` this fixes the token sequence of every text, order and repeats included |
| JavaString.Decimal | WaifUPnP/src/main/java/com/netzarchitekten/upnp/Gateway.java:202-203 | `"" + port` is a canonical decimal spelling (digits only, non-empty, no leading zero unless it is "0") that reads back as the port |
| JavaString.CanonicalDecimalUnique | WaifUPnP/src/main/java/com/netzarchitekten/upnp/Gateway.java:202-203 | a number has only one canonical decimal spelling: every canonical digit string is the `Decimal` of the number it spells, so canonical digits reading back as `n` are exactly `"" + n` |
| JavaString.Utf8LengthBounds | WaifUPnP/src/main/java/com/netzarchitekten/upnp/Gateway.java:144-151 | the byte length sent as Content-Length is never below the char count, and equals it exactly for ASCII text |
| Ssdp.ClassifyTrimmed | WaifUPnP/src/main/java/com/netzarchitekten/upnp/Gateway.java:52-57 | a trimmed line is skipped exactly when it is empty or starts with `HTTP/1.` or `NOTIFY *`; a kept line without ':' is the failing case; otherwise the name is the prefix before the first ':' and the value is the trimmed rest |
| Ssdp.ClassifyLine | WaifUPnP/src/main/java/com/netzarchitekten/upnp/Gateway.java:52 | each token is trimmed before it is classified; the cases are those of `ClassifyTrimmed` |
| Ssdp.ScanLines | WaifUPnP/src/main/java/com/netzarchitekten/upnp/Gateway.java:51-61 | the header loop over classified lines; `ScanFailsIffColonless`, `ScanKeepsWithoutLocation` and `ScanFindsLastLocation` state what it computes |
| Ssdp.ScanFailsIffColonless | WaifUPnP/src/main/java/com/netzarchitekten/upnp/Gateway.java:51-61 | the header loop throws exactly when some kept line has no ':' |
| Ssdp.ScanKeepsWithoutLocation | WaifUPnP/src/main/java/com/netzarchitekten/upnp/Gateway.java:58-60 | on lines none of which lacks a ':', and with no `location` header among them, the loop leaves `location` as it was |
| Ssdp.ScanFindsLastLocation | WaifUPnP/src/main/java/com/netzarchitekten/upnp/Gateway.java:58-60 | on lines none of which lacks a ':', the loop ends with the value of the last `location` header, whatever headers came before it (a line without ':' aborts instead, see `ColonlessLineAborts`) |
| Ssdp.LocationOf | WaifUPnP/src/main/java/com/netzarchitekten/upnp/Gateway.java:51-64 | on classified lines, a location is found exactly when no line fails and some line is a `location` header; it is the value of the last one |
| Ssdp.FindLocation | WaifUPnP/src/main/java/com/netzarchitekten/upnp/Gateway.java:50-64 | the same, stated for the raw response text: a location is found iff no kept line lacks ':' and some header is named `location` in any letter case, and it is the trimmed value of the last such header |
| Ssdp.ColonlessLineAborts | WaifUPnP/src/main/java/com/netzarchitekten/upnp/Gateway.java:56 | a kept line without ':' makes the scan fail even when a good `location` header came before it |
| Description.Next | WaifUPnP/src/main/java/com/netzarchitekten/upnp/Gateway.java:96-120 | one event of the walk commits exactly at a `service` end tag whose collected values are both present and of a supported type, and then commits their trims. A rejected `service` end resets everything and every end tag clears the current tag. A start tag only sets the current tag. Text that trims to something non-empty fills only the field its tag names, serviceType before controlURL |
| Description.Run | WaifUPnP/src/main/java/com/netzarchitekten/upnp/Gateway.java:94-122 | the `parseDescription` loop: `Next` on each event until one commits; `RunAppend`, `RunKeepsClean` and `InertKeeps` state its properties |
| Description.IsSupportedType | WaifUPnP/src/main/java/com/netzarchitekten/upnp/Gateway.java:110-111 | the supported-type test: the lower-cased type contains `:wanipconnection:` or `:wanpppconnection:`; `ParseDescription` promises it of every result |
| Description.ParseDescription | WaifUPnP/src/main/java/com/netzarchitekten/upnp/Gateway.java:87-123 | a resolved service has a type containing `:wanipconnection:` or `:wanpppconnection:` in any case, and a type and control URL that are non-empty and trimmed |
| Description.RunKeepsClean | WaifUPnP/src/main/java/com/netzarchitekten/upnp/Gateway.java:99-113 | at every point the walk holds only non-empty trimmed values, so whatever it commits is non-empty, trimmed and supported |
| Description.RunAppend | WaifUPnP/src/main/java/com/netzarchitekten/upnp/Gateway.java:95-122 | walking `a + b` is walking `a` and then `b` from where `a` stopped, unless `a` already returned |
| Description.FirstServiceWins | WaifUPnP/src/main/java/com/netzarchitekten/upnp/Gateway.java:109-114 | once a service has been committed, no later events change the result |
| Description.NoLeakPastRejectedService | WaifUPnP/src/main/java/com/netzarchitekten/upnp/Gateway.java:117-119 | after a rejected `service` closes, the result depends only on the events that follow, so values never leak from one service into the next |
| Description.InertKeeps | WaifUPnP/src/main/java/com/netzarchitekten/upnp/Gateway.java:96-120 | events that close no `service` and put no non-blank text under a `serviceType` or `controlURL` tag never commit and leave both collected values as they were |
| Description.FieldThenInert | WaifUPnP/src/main/java/com/netzarchitekten/upnp/Gateway.java:98-106 | `<serviceType>` (or `<controlURL>`) followed by text that does not trim to empty, then inert events, sets that value to the trimmed text and leaves the other value alone |
| Description.ServiceBlockCommits | WaifUPnP/src/main/java/com/netzarchitekten/upnp/Gateway.java:96-114 | a `<service>` block with a supported `serviceType` and a non-blank `controlURL`, in either order, with any inert events (whitespace, `serviceId`, `SCPDURL`, end tags) around them, commits their trimmed values, whatever state the walk was in |
| Description.FirstQualifyingBlockResolved | WaifUPnP/src/main/java/com/netzarchitekten/upnp/Gateway.java:87-123 | when nothing before such a block committed, that block is the result, whatever follows it |
| DescriptionExample.RealisticBlock | WaifUPnP/src/main/java/com/netzarchitekten/upnp/Gateway.java:87-123 | a `<service>` element with whitespace between its children and a `serviceId` between `serviceType` and `controlURL` resolves to its type and control URL |
| Soap.SplitAtFirst | WaifUPnP/src/main/java/com/netzarchitekten/upnp/Gateway.java:136-138 | reading an element back cuts at the first '>' after the key and the first '<' after the value, which are the ones the writer put there when neither key nor value holds them |
| Soap.ParseOneElement | WaifUPnP/src/main/java/com/netzarchitekten/upnp/Gateway.java:136-138 | one `<key>value</key>` element, with no '>' in the key and no '<' in the value, reads back as its key and value, followed by whatever came after it |
| Soap.ElementsRoundTrip | WaifUPnP/src/main/java/com/netzarchitekten/upnp/Gateway.java:134-140 | arguments with no '>' in a key and no '<' in a value, written as elements, read back as the same arguments in the same order |
| Soap.Envelope | WaifUPnP/src/main/java/com/netzarchitekten/upnp/Gateway.java:128-142 | the request envelope; `EnvelopeReadsBack` states its fixed head and tail and that the arguments read back out of it |
| Soap.EnvelopeReadsBack | WaifUPnP/src/main/java/com/netzarchitekten/upnp/Gateway.java:128-142 | the envelope starts with the fixed XML and SOAP head and `<m:action xmlns:m="serviceType">`, ends with `</m:action>` and the fixed tail, and the arguments can be read back out of it in order |
| Soap.SoapActionRoundTrip | WaifUPnP/src/main/java/com/netzarchitekten/upnp/Gateway.java:149 | for a service type without '#', the quoted `SOAPAction` header reads back as the service type and the action |
| Soap.SoapAction | WaifUPnP/src/main/java/com/netzarchitekten/upnp/Gateway.java:149 | the quoted `"serviceType#action"` header value; `SoapActionRoundTrip` states that it reads back |
| Soap.RequestReadsBack | WaifUPnP/src/main/java/com/netzarchitekten/upnp/Gateway.java:144-151 | the request is a POST to the control URL with `text/xml`, and `Connection: Close`. For a service type without '#', its `SOAPAction` reads back as type and action. Its Content-Length is the canonical decimal spelling of the body's byte length, which is the body's length for ASCII. For arguments with no '>' in a key and no '<' in a value, its body reads back as the arguments |
| Soap.Request | WaifUPnP/src/main/java/com/netzarchitekten/upnp/Gateway.java:144-151 | the POST request `command` sends; `RequestReadsBack` states its verb, headers, Content-Length and body |
| Soap.LastStored | WaifUPnP/src/main/java/com/netzarchitekten/upnp/Gateway.java:158-171 | nothing is stored under a key exactly when no text event is stored under it; otherwise the result is the text of the last storing event |
| Soap.FlattenFrom | WaifUPnP/src/main/java/com/netzarchitekten/upnp/Gateway.java:158-171 | the response loop from a given event; `FlattenFromLastWins` states that it ends with each key's last stored text |
| Soap.FlattenFromLastWins | WaifUPnP/src/main/java/com/netzarchitekten/upnp/Gateway.java:158-171 | the response loop, from any point, ends with each key mapped to its last stored text |
| Soap.Flatten | WaifUPnP/src/main/java/com/netzarchitekten/upnp/Gateway.java:158-171 | the flattened response maps each key to the last text stored under it, and has no other keys |
| Soap.TextAfterEndTagDropped | WaifUPnP/src/main/java/com/netzarchitekten/upnp/Gateway.java:167-168 | text right after an end tag is never stored |
| Soap.Command | WaifUPnP/src/main/java/com/netzarchitekten/upnp/Gateway.java:125-175 | `command` fails exactly when the round trip fails; otherwise each key of the result maps to the last text stored under it |
| Gateway.ResolveControlURL | WaifUPnP/src/main/java/com/netzarchitekten/upnp/Gateway.java:75-83 | there is no result exactly when the location has no '/' at index 7 or later. Otherwise the result is `Normalised`: the location up to that slash, then '/', then the control URL with its own leading '/' not doubled |
| Gateway.ResolveExample | WaifUPnP/src/main/java/com/netzarchitekten/upnp/Gateway.java:75-83 | `http://192.168.1.1:5431/desc.xml` with `ctl/IPConn` gives `http://192.168.1.1:5431/ctl/IPConn`: the description path is replaced by the control URL |
| Gateway.ResolveHttpsLocation | WaifUPnP/src/main/java/com/netzarchitekten/upnp/Gateway.java:75 | the slash search starts at index 7 even for `https://`, so the host is lost: `https://h/d.xml` with `ctl` gives `https://ctl` |
| Gateway.Resolve | WaifUPnP/src/main/java/com/netzarchitekten/upnp/Gateway.java:72-83 | construction after the fetch succeeds exactly when the description yields a service and the location has a '/' at index 7 or later. The gateway then keeps both addresses and the supported type, with the control URL made absolute as above |
| Gateway.Discover | WaifUPnP/src/main/java/com/netzarchitekten/upnp/Gateway.java:44-84 | the constructor succeeds exactly when the SSDP scan finds a location, its description can be fetched and names a supported service, and the location has a '/' at index 7 or later. The gateway then keeps both addresses and the service's supported type, with the control URL normalised against the location |
| Gateway.AddPortMappingArgs | WaifUPnP/src/main/java/com/netzarchitekten/upnp/Gateway.java:198-206 | `openPort` sends exactly eight arguments: an empty remote host, `UDP` or `TCP`, the local address, the port's canonical decimal spelling as both external and internal port, enabled `1`, the description and lease `0` |
| Gateway.PortMappingEntryArgs | WaifUPnP/src/main/java/com/netzarchitekten/upnp/Gateway.java:219-222 | `closePort` and `isMapped` send exactly three arguments: an empty remote host, the protocol and the port's canonical decimal spelling |
| Gateway.ArrangeListsEachEntryOnce | WaifUPnP/src/main/java/com/netzarchitekten/upnp/Gateway.java:135 | the map's entries are written one per key, each key once, each with its value, the i-th being the i-th key of the iteration order |
| Gateway.Arrange | WaifUPnP/src/main/java/com/netzarchitekten/upnp/Gateway.java:135 | the argument map written out in iteration order; `ArrangeListsEachEntryOnce` states what it lists |
| Gateway.ActionRequestReadsBack | WaifUPnP/src/main/java/com/netzarchitekten/upnp/Gateway.java:125-151 | an action request goes to the gateway's control URL, names its service type and action, and its body reads back as the argument map's entries in iteration order |
| Gateway.ActionRequest | WaifUPnP/src/main/java/com/netzarchitekten/upnp/Gateway.java:125-151 | the request an action sends for a given iteration order; `ActionRequestReadsBack` states where it goes and what reads back |
| Gateway.KeyIffReported | WaifUPnP/src/main/java/com/netzarchitekten/upnp/Gateway.java:164-166 | a key is in the flattened response exactly when some text was stored under it |
| Results.Lookup | WaifUPnP/src/main/java/com/netzarchitekten/upnp/Gateway.java:188 | `Map.get`: `null` exactly when the key is absent, otherwise the key's value |
| Gateway.GetExternalIP | WaifUPnP/src/main/java/com/netzarchitekten/upnp/Gateway.java:185-192 | the result is the last text the response held under `NewExternalIPAddress`; there is none when the call fails or no such text came |
| Gateway.OpenPort | WaifUPnP/src/main/java/com/netzarchitekten/upnp/Gateway.java:194-213 | an out-of-range port is an illegal argument. Otherwise the result is true exactly when the call succeeds and the response reports no `errorCode` |
| Gateway.ClosePort | WaifUPnP/src/main/java/com/netzarchitekten/upnp/Gateway.java:215-229 | an out-of-range port is an illegal argument. Otherwise the result is true exactly when the call goes through, whatever the response holds |
| Gateway.IsMapped | WaifUPnP/src/main/java/com/netzarchitekten/upnp/Gateway.java:231-248 | an out-of-range port is an illegal argument. Otherwise the result is true exactly when the call succeeds, the response reports no `errorCode`, and it reports a `NewInternalPort` |
| Gateway.ErrorCodeAsymmetry | WaifUPnP/src/main/java/com/netzarchitekten/upnp/Gateway.java:207-247 | when every call goes through (a successful HTTP reply) and the reply stores an `errorCode`, `openPort` and `isMapped` return false but `closePort` returns true |
| Gateway.FailedCallsAllFalse | WaifUPnP/src/main/java/com/netzarchitekten/upnp/Gateway.java:207-247 | when the round trip fails (an HTTP error status, as UPnP error replies usually carry, makes `getInputStream()` throw), `openPort`, `closePort` and `isMapped` all return false |

The header name is not trimmed before it is compared with `location`: it is
the prefix of the trimmed line before the first ':', so a space before the
colon makes the name differ. The value is trimmed. A kept line without any
':' makes `substring(0, -1)` throw, and the whole construction fails. When
several `location` headers appear, the last one wins.

## Left out

- Network I/O: the UDP discovery, the HTTP GET of the description and the
  HTTP POST of each action are parameters (`fetch`, `transport`). A failure
  of any of them, or an HTTP error status, is a single `Failed`. A UPnP
  error reply usually comes with HTTP status 500, on which
  `getInputStream()` throws; `transport` then gives `Failed`, and
  `openPort`, `closePort` and `isMapped` all return false. The asymmetry of
  `Gateway.ErrorCodeAsymmetry` only shows when the `errorCode` arrives in a
  successful reply.
- The XML pull parser itself: a document is given as its event sequence.
  A parse error in a SOAP response makes `parser.next()` throw, so it is a
  `Failed` from `transport`. A device description is given as the events
  before its first parse error; this has the outcome of the exception,
  because a service committed before the error is returned before the
  parser reaches it, and otherwise the construction fails. Namespace
  prefixes, entity decoding and whitespace-only text events follow
  whatever the parser reports.
- A `null` application name in `openPort`: Java appends it to the envelope
  as the text `null`. The model takes the description as a string.
- `new String(data)`: the decoding of the SSDP bytes with the platform
  charset. The response is given as text.
- `getBytes()`: the platform charset is taken to be UTF-8, so the
  Content-Length is the UTF-8 byte length.
- `getGatewayIP` and `getLocalIP` (`InetAddress.getHostAddress()`): the two
  addresses are the text fields of `Endpoint`.
- `HashMap` iteration order: each argument-sending operation takes `order`,
  any enumeration of the map's keys. Every property is stated for all such
  orders, because the order Java picks is not specified.
- Exception classes and messages: every failure of construction is one
  `Failed`. `openPort`, `closePort` and `isMapped` return `IllegalArgument`
  for an out-of-range port.
- JavaString.LowerChar: folds ASCII letters only. Java's
  `Character.toLowerCase` folds every Unicode letter.
- JavaString.Lower: folds ASCII letters only. Java's `toLowerCase()` depends
  on the default locale and folds all of Unicode.
- JavaString.EqualsIgnoreCase: compares with ASCII folding only. Java's
  `equalsIgnoreCase` folds all of Unicode, so it also matches `locatıon`
  (dotless ı) with `location` and `ſervice` (long s) with `service`; the
  model does not.
- JavaString.EqualsIgnoreCaseByChars: relates the model to
  `regionMatches(true, ...)` char by char, with the ASCII case mapping only,
  for the same reason.
- Soap.EnvelopeReadsBack: the read-back is stated only for arguments with no '>' in a
  key and no '<' in a value. The code escapes nothing, so other arguments
  give XML that does not read back unambiguously.
- Soap.RequestReadsBack: the `SOAPAction` read-back is stated only for service types
  without '#'. Such a '#' would make the header ambiguous.
- Gateway.ActionRequestReadsBack: the same two restrictions, for the same reasons.
- The fixed 7 in the control URL's slash search is modelled as written
  (`Gateway.ResolveHttpsLocation`). It is not reported as a defect, because
  gateways answer with plain `http` locations.
