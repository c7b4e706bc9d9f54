/** The SSDP response header scan at the start of the gateway constructor:
    find the `LOCATION` header of a discovery response. */
module Ssdp {
  import opened Results
  import opened JavaString

  /** How the scan treats one token of the response. */
  datatype Line =
    | Skipped                               // blank, status or NOTIFY line
    | Header(name: string, value: string)   // split at the first ':'
    | NoColon                               // `substring(0, -1)` throws

  /** One trimmed token: blank, `HTTP/1.` and `NOTIFY *` lines are
      skipped; any other line is cut at its first ':' into a name, left
      untrimmed, and a trimmed value; a line without ':' makes the scan throw. */
  function ClassifyTrimmed(s: string): (l: Line)
    ensures l.Skipped? <==> s == [] || StartsWith(s, "HTTP/1.") || StartsWith(s, "NOTIFY *")
    ensures l.NoColon? <==> !l.Skipped? && ':' !in s
    ensures l.Header? ==>
      && |l.name| < |s|
      && s[..|l.name|] == l.name && ':' !in l.name && s[|l.name|] == ':'
      && l.value == Trim(s[|l.name| + 1..])
  {
    if s == [] || StartsWith(s, "HTTP/1.") || StartsWith(s, "NOTIFY *") then
      Skipped
    else
      match IndexOf(s, ':', 0)
      case None => NoColon
      case Some(colon) =>
        assert ':' !in s[..colon] by {
          forall j | 0 <= j < colon ensures s[..colon][j] != ':' { }
        }
        Header(s[..colon], Trim(s[colon + 1..]))
  }

  /** The loop body for one token: it is trimmed first. */
  function ClassifyLine(token: string): Line {
    ClassifyTrimmed(Trim(token))
  }

  /** `name.equalsIgnoreCase("location")`. */
  predicate IsLocationName(name: string) {
    EqualsIgnoreCase(name, "location")
  }

  predicate IsLocation(l: Line) {
    l.Header? && IsLocationName(l.name)
  }

  /** Every token of the response, classified. */
  function Classify(tokens: seq<string>): (ls: seq<Line>)
    ensures |ls| == |tokens|
    ensures forall i :: 0 <= i < |tokens| ==> ls[i] == ClassifyLine(tokens[i])
  {
    seq(|tokens|, i requires 0 <= i < |tokens| => ClassifyLine(tokens[i]))
  }

  /** No line aborts the scan. */
  predicate WellFormed(ls: seq<Line>) {
    forall i :: 0 <= i < |ls| ==> !ls[i].NoColon?
  }

  /** Line `i` is a location header and no later line is one. */
  predicate LastLocationAt(ls: seq<Line>, i: int) {
    && 0 <= i < |ls|
    && IsLocation(ls[i])
    && forall j :: i < j < |ls| ==> !IsLocation(ls[j])
  }

  /** The header loop, line by line: each location header overwrites the
      one found so far; a line without ':' aborts the whole scan. */
  function ScanLines(ls: seq<Line>, location: Option<string>): Result<Option<string>>
  {
    if ls == [] then Ok(location)
    else
      match ls[0]
      case Skipped => ScanLines(ls[1..], location)
      case NoColon => Failed
      case Header(name, value) =>
        ScanLines(ls[1..], if IsLocationName(name) then Some(value) else location)
  }

  /** The scan fails exactly when some line has no ':'. */
  lemma {:induction false} ScanFailsIffColonless(ls: seq<Line>, location: Option<string>)
    ensures ScanLines(ls, location).Ok? <==> WellFormed(ls)
  {
    if ls != [] {
      var next := if IsLocation(ls[0]) then Some(ls[0].value) else location;
      ScanFailsIffColonless(ls[1..], next);
      assert WellFormed(ls) <==> !ls[0].NoColon? && WellFormed(ls[1..]) by {
        if !ls[0].NoColon? && WellFormed(ls[1..]) {
          forall i | 0 < i < |ls| ensures !ls[i].NoColon? {
            assert ls[i] == ls[1..][i - 1];
          }
        }
      }
    }
  }

  /** Without any location header the scan keeps its starting value. */
  lemma {:induction false} ScanKeepsWithoutLocation(ls: seq<Line>, location: Option<string>)
    requires WellFormed(ls)
    requires forall i :: 0 <= i < |ls| ==> !IsLocation(ls[i])
    ensures ScanLines(ls, location) == Ok(location)
  {
    if ls != [] {
      assert forall i :: 0 < i < |ls| ==> ls[1..][i - 1] == ls[i];
      ScanKeepsWithoutLocation(ls[1..], location);
    }
  }

  /** The scan yields the value of the last location header. */
  lemma {:induction false} ScanFindsLastLocation(ls: seq<Line>, location: Option<string>, i: int)
    requires WellFormed(ls) && LastLocationAt(ls, i)
    ensures ScanLines(ls, location) == Ok(Some(ls[i].value))
  {
    var rest := ls[1..];
    var next := if IsLocation(ls[0]) then Some(ls[0].value) else location;
    assert forall j :: 0 < j < |ls| ==> rest[j - 1] == ls[j];
    if i > 0 {
      assert LastLocationAt(rest, i - 1);
      ScanFindsLastLocation(rest, next, i - 1);
    } else {
      ScanKeepsWithoutLocation(rest, next);
    }
  }

  /** If some line is a location header, one of them is the last. */
  lemma LastLocationExists(ls: seq<Line>, i: int)
    requires 0 <= i < |ls| && IsLocation(ls[i])
    ensures exists j :: LastLocationAt(ls, j)
    decreases |ls| - i
  {
    if !LastLocationAt(ls, i) {
      var j :| i < j < |ls| && IsLocation(ls[j]);
      LastLocationExists(ls, j);
    }
  }

  /** The location the header loop settles on for classified lines. */
  function LocationOf(ls: seq<Line>): (r: Result<string>)
    ensures r.Ok? <==> WellFormed(ls) && exists i :: 0 <= i < |ls| && IsLocation(ls[i])
    ensures r.Ok? ==> exists i :: LastLocationAt(ls, i) && r.value == ls[i].value
  {
    ScanFailsIffColonless(ls, None);
    if WellFormed(ls) then
      LocationOutcome(ls);
      match ScanLines(ls, None)
      case Ok(Some(location)) => Ok(location)
      case _ => Failed
    else
      Failed
  }

  /** The Location URL of an SSDP response. It exists exactly when no kept
      line lacks a ':' and some line is a `location` header (any case); it
      is then the trimmed value of the LAST such line. */
  function FindLocation(response: string): (r: Result<string>)
    ensures var ls := Classify(Tokens(response));
      r.Ok? <==> WellFormed(ls) && exists i :: 0 <= i < |ls| && IsLocation(ls[i])
    ensures var ls := Classify(Tokens(response));
      r.Ok? ==> exists i :: LastLocationAt(ls, i) && r.value == ls[i].value
  {
    LocationOf(Classify(Tokens(response)))
  }

  lemma LocationOutcome(ls: seq<Line>)
    requires WellFormed(ls)
    ensures ScanLines(ls, None).Ok?
    ensures ScanLines(ls, None).value.Some? <==> exists i :: 0 <= i < |ls| && IsLocation(ls[i])
    ensures ScanLines(ls, None).value.Some? ==>
      exists i :: LastLocationAt(ls, i) && ScanLines(ls, None).value.value == ls[i].value
  {
    ScanFailsIffColonless(ls, None);
    if exists i :: 0 <= i < |ls| && IsLocation(ls[i]) {
      var i :| 0 <= i < |ls| && IsLocation(ls[i]);
      LastLocationExists(ls, i);
      var j :| LastLocationAt(ls, j);
      ScanFindsLastLocation(ls, None, j);
    } else {
      ScanKeepsWithoutLocation(ls, None);
    }
  }

  /** A line that is not blank, not a status line and has no ':' aborts the
      scan even when a valid location header precedes it. */
  lemma ColonlessLineAborts(before: seq<Line>, after: seq<Line>, location: Option<string>)
    ensures ScanLines(before + [NoColon] + after, location) == Failed
  {
    var ls := before + [NoColon] + after;
    assert ls[|before|] == NoColon;
    ScanFailsIffColonless(ls, location);
  }
}
