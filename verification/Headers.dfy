/** Header lists, and the removal of hop-by-hop headers as in section 7.6.1 of RFC 9110. Names are
    compared without regard to the case of ASCII letters. */
module Headers {

  datatype Header = Header(name: string, value: string)

  function LowerCase(c: char): char {
    if 'A' <= c <= 'Z' then c - 'A' + 'a' else c
  }

  function Lower(s: string): (r: string)
    ensures |r| == |s|
  {
    seq(|s|, i requires 0 <= i < |s| => LowerCase(s[i]))
  }

  /** Capital and small ASCII letters fall together, and nothing else does. */
  lemma CaseIsIgnored(c: char, d: char)
    ensures LowerCase(c) == LowerCase(d) <==>
      c == d || ('a' <= c <= 'z' && c as int - d as int == 32) || ('a' <= d <= 'z' && d as int - c as int == 32)
  {
  }

  const CONNECTION := "Connection"
  const HOST := "Host"
  const FORWARDED_FOR := "X-Forwarded-For"

  const HOP_HEADERS: seq<string> := [
    CONNECTION, "Proxy-Connection", "Keep-Alive", "Proxy-Authenticate", "Proxy-Authorization",
    "Te", "Trailer", "Transfer-Encoding", "Upgrade"]

  const CONNECTION_OPTIONS: seq<string> := ["close", "keep-alive", "Content-Length"]

  function LowerAll(names: seq<string>): set<string> {
    set s | s in names :: Lower(s)
  }

  // ---------- the tokens of a Connection line ----------

  /** bytes.SplitSeq on commas: the pieces between them, empty ones included. */
  function Split(s: string): (r: seq<string>)
    ensures r != []
  {
    if s == [] then [[]]
    else
      var rest := Split(s[1..]);
      if s[0] == ',' then [[]] + rest else [[s[0]] + rest[0]] + rest[1..]
  }

  /** unicode.IsSpace */
  predicate IsSpace(c: char) {
    var u := c as int;
    || c == ' ' || c == '\t' || c == '\n' || c == '\r' || u in {0x0B, 0x0C, 0x85, 0xA0}
    || u in {0x1680, 0x2028, 0x2029, 0x202F, 0x205F, 0x3000} || 0x2000 <= u <= 0x200A
  }

  /** The optional whitespace of section 5.6.3 of RFC 9110 is among them, and no visible ASCII character. */
  lemma SpacesAndVisibleCharacters(c: char)
    ensures c in " \t" ==> IsSpace(c)
    ensures 0x21 <= c as int <= 0x7E ==> !IsSpace(c)
  {
  }

  function TrimLeft(s: string): string {
    if s != [] && IsSpace(s[0]) then TrimLeft(s[1..]) else s
  }

  function TrimRight(s: string): string {
    if s != [] && IsSpace(s[|s| - 1]) then TrimRight(s[..|s| - 1]) else s
  }

  function TrimSpace(s: string): string {
    TrimRight(TrimLeft(s))
  }

  ghost predicate AllSpaces(s: string) {
    forall k :: 0 <= k < |s| ==> IsSpace(s[k])
  }

  lemma MoreSpaces(s: string, c: char)
    requires AllSpaces(s) && IsSpace(c)
    ensures AllSpaces([c] + s) && AllSpaces(s + [c])
  {
  }

  lemma {:induction false} TrimLeftMeans(s: string) returns (i: nat)
    ensures i <= |s| && TrimLeft(s) == s[i..] && AllSpaces(s[..i]) && (i < |s| ==> !IsSpace(s[i]))
  {
    i := 0;
    if s != [] && IsSpace(s[0]) {
      i := TrimLeftMeans(s[1..]);
      MoreSpaces(s[1..][..i], s[0]);
      assert s[..i + 1] == [s[0]] + s[1..][..i];
      i := i + 1;
    }
  }

  lemma {:induction false} TrimRightMeans(s: string) returns (j: nat)
    ensures j <= |s| && TrimRight(s) == s[..j] && AllSpaces(s[j..]) && (j > 0 ==> !IsSpace(s[j - 1]))
  {
    j := |s|;
    if s != [] && IsSpace(s[|s| - 1]) {
      var n := |s| - 1;
      j := TrimRightMeans(s[..n]);
      MoreSpaces(s[..n][j..], s[n]);
      assert s[j..] == s[..n][j..] + [s[n]] && s[..j] == s[..n][..j];
    }
  }

  /** All spaces at both ends go, and no other character. */
  lemma TrimSpaceMeans(s: string) returns (i: nat, j: nat)
    ensures i <= j <= |s| && TrimSpace(s) == s[i..j] && AllSpaces(s[..i]) && AllSpaces(s[j..])
    ensures i < j ==> !IsSpace(s[i]) && !IsSpace(s[j - 1])
  {
    i := TrimLeftMeans(s);
    var k := TrimRightMeans(s[i..]);
    j := i + k;
    assert s[i..][..k] == s[i..j] && s[i..][k..] == s[j..];
  }

  /** The letter that c folds to: besides the capitals, the Kelvin sign and the long s fold to ASCII. */
  function FoldCase(c: char): char {
    if c == '\U{212A}' then 'k' else if c == '\U{017F}' then 's' else LowerCase(c)
  }

  function Fold(s: string): string {
    seq(|s|, i requires 0 <= i < |s| => FoldCase(s[i]))
  }

  /** bytes.EqualFold with one of the options, which are ASCII. */
  predicate IsConnectionOption(token: string) {
    Fold(token) in LowerAll(CONNECTION_OPTIONS)
  }

  lemma ConnectionOptionsAre(token: string)
    ensures IsConnectionOption(token) <==> Fold(token) in {"close", "keep-alive", "content-length"}
  {
    assert Lower("close") == "close" && Lower("keep-alive") == "keep-alive";
    assert Lower("Content-Length") == "content-length";
    assert CONNECTION_OPTIONS[0] == "close" && CONNECTION_OPTIONS[1] == "keep-alive";
    assert CONNECTION_OPTIONS[2] == "Content-Length";
  }

  /** The header that a piece of a Connection line nominates, if any. */
  function NominatedBy(piece: string): set<string> {
    var token := TrimSpace(piece);
    if |token| > 0 && !IsConnectionOption(token) then {Lower(token)} else {}
  }

  function NominatedByAny(pieces: seq<string>): set<string> {
    if pieces == [] then {} else NominatedByAny(pieces[..|pieces| - 1]) + NominatedBy(pieces[|pieces| - 1])
  }

  function NominatedByLines(values: seq<string>): set<string> {
    if values == [] then {} else NominatedByLines(values[..|values| - 1]) + NominatedByAny(Split(values[|values| - 1]))
  }

  // ---------- header lists ----------

  function Values(fields: seq<Header>, key: string): seq<string> {
    if fields == [] then []
    else
      var last := fields[|fields| - 1];
      Values(fields[..|fields| - 1], key) + if Lower(last.name) == Lower(key) then [last.value] else []
  }

  /** The headers whose names are not among these, in their order. */
  function Strip(fields: seq<Header>, names: set<string>): seq<Header> {
    if fields == [] then []
    else
      var last := fields[|fields| - 1];
      Strip(fields[..|fields| - 1], names) + if Lower(last.name) in names then [] else [last]
  }

  function Nominated(fields: seq<Header>): set<string> {
    NominatedByLines(Values(fields, CONNECTION))
  }

  /** What is left of a header list on its way through the proxy. */
  function EndToEnd(fields: seq<Header>): seq<Header> {
    Strip(fields, Nominated(fields) + LowerAll(HOP_HEADERS))
  }

  /** The list after setting one header. */
  function WithHeader(fields: seq<Header>, key: string, value: string): seq<Header> {
    Strip(fields, {Lower(key)}) + [Header(key, value)]
  }

  class HeaderSet {
    var fields: seq<Header>

    constructor (fields: seq<Header>)
      ensures this.fields == fields
    {
      this.fields := fields;
    }

    method PeekAll(key: string) returns (values: seq<string>)
      ensures values == Values(fields, key)
    {
      values := [];
      for k := 0 to |fields|
        invariant values == Values(fields[..k], key)
      {
        assert fields[..k + 1][..k] == fields[..k];
        if Lower(fields[k].name) == Lower(key) {
          values := values + [fields[k].value];
        }
      }
      assert fields[..|fields|] == fields;
    }

    method DelBytes(key: string)
      modifies this
      ensures fields == Strip(old(fields), {Lower(key)})
    {
      var kept := [];
      for k := 0 to |fields|
        invariant fields == old(fields) && kept == Strip(fields[..k], {Lower(key)})
      {
        assert fields[..k + 1][..k] == fields[..k];
        if Lower(fields[k].name) != Lower(key) {
          kept := kept + [fields[k]];
        }
      }
      assert fields[..|fields|] == fields;
      fields := kept;
    }

    method Set(key: string, value: string)
      modifies this
      ensures fields == WithHeader(old(fields), key, value)
    {
      DelBytes(key);
      fields := fields + [Header(key, value)];
    }

    /** The inner loop of delConnectionNominated, over one Connection line. */
    method DelTokens(value: string)
      modifies this
      ensures fields == Strip(old(fields), NominatedByAny(Split(value)))
    {
      ghost var was := fields;
      var pieces := Split(value);
      StripNothing(was);
      for j := 0 to |pieces|
        invariant fields == Strip(was, NominatedByAny(pieces[..j]))
      {
        assert pieces[..j + 1][..j] == pieces[..j];
        var token := TrimSpace(pieces[j]);
        if |token| > 0 && !IsConnectionOption(token) {
          DelBytes(token);
          StripTwice(was, NominatedByAny(pieces[..j]), {Lower(token)});
        } else {
          assert NominatedByAny(pieces[..j]) + {} == NominatedByAny(pieces[..j]);
        }
      }
      assert pieces[..|pieces|] == pieces;
    }

    /** delConnectionNominated: the Connection lines are read before anything is deleted. */
    method DelConnectionNominated()
      modifies this
      ensures fields == Strip(old(fields), Nominated(old(fields)))
    {
      ghost var was := fields;
      var values := PeekAll(CONNECTION);
      StripNothing(was);
      for i := 0 to |values|
        invariant fields == Strip(was, NominatedByLines(values[..i]))
      {
        assert values[..i + 1][..i] == values[..i];
        DelTokens(values[i]);
        StripTwice(was, NominatedByLines(values[..i]), NominatedByAny(Split(values[i])));
      }
      assert values[..|values|] == values;
    }

    method DelAll(names: seq<string>)
      modifies this
      ensures fields == Strip(old(fields), LowerAll(names))
    {
      ghost var was := fields;
      StripNothing(was);
      assert LowerAll(names[..0]) == {};
      for i := 0 to |names|
        invariant fields == Strip(was, LowerAll(names[..i]))
      {
        DelBytes(names[i]);
        StripTwice(was, LowerAll(names[..i]), {Lower(names[i])});
        LowerAllExtend(names, i);
      }
      assert names[..|names|] == names;
    }

    /** The removals that preReq and postRes share: nominated headers first, then the fixed list. */
    method DelHopByHop()
      modifies this
      ensures fields == EndToEnd(old(fields))
    {
      StripTwice(fields, Nominated(fields), LowerAll(HOP_HEADERS));
      DelConnectionNominated();
      DelAll(HOP_HEADERS);
    }

    /** preReq without the custom headers: the removals come first, so a client that nominates Host or
        X-Forwarded-For only loses values of its own. */
    method PreReq(host: string, clientIP: string)
      modifies this
      ensures fields == Prepared(old(fields), host, clientIP)
      ensures HeadersChanged(EndToEnd(old(fields)), fields, map[Lower(HOST) := host, Lower(FORWARDED_FOR) := clientIP])
    {
      DelHopByHop();
      TwoHeadersSet(fields, HOST, host, FORWARDED_FOR, clientIP);
      Set(HOST, host);
      Set(FORWARDED_FOR, clientIP);
    }
  }

  /** The request's headers as the first OnRequest call, or the backend, finds them. */
  function Prepared(fields: seq<Header>, host: string, clientIP: string): seq<Header> {
    WithHeader(WithHeader(EndToEnd(fields), HOST, host), FORWARDED_FOR, clientIP)
  }

  lemma StripExtend(fields: seq<Header>, f: Header, names: set<string>)
    ensures Strip(fields + [f], names) == Strip(fields, names) + if Lower(f.name) in names then [] else [f]
  {
    assert (fields + [f])[..|fields|] == fields;
  }

  lemma ValuesExtend(fields: seq<Header>, f: Header, key: string)
    ensures Values(fields + [f], key) == Values(fields, key) + if Lower(f.name) == Lower(key) then [f.value] else []
  {
    assert (fields + [f])[..|fields|] == fields;
  }

  lemma LowerAllExtend(names: seq<string>, i: nat)
    requires i < |names|
    ensures LowerAll(names[..i + 1]) == LowerAll(names[..i]) + {Lower(names[i])}
  {
    assert names[..i + 1] == names[..i] + [names[i]];
  }

  lemma {:induction false} StripNothing(fields: seq<Header>)
    ensures Strip(fields, {}) == fields
  {
    if fields != [] {
      StripNothing(fields[..|fields| - 1]);
      assert fields == fields[..|fields| - 1] + [fields[|fields| - 1]];
    }
  }

  lemma {:induction false} StripTwice(fields: seq<Header>, a: set<string>, b: set<string>)
    ensures Strip(Strip(fields, a), b) == Strip(fields, a + b)
  {
    if fields != [] {
      var before, last := fields[..|fields| - 1], fields[|fields| - 1];
      StripTwice(before, a, b);
      var kept := Strip(before, a);
      assert (kept + [last])[..|kept|] == kept;
      assert kept + [] == kept;
    }
  }

  // ---------- what EndToEnd means ----------

  ghost predicate Counted(fields: seq<Header>, kept: seq<Header>, names: set<string>, f: Header) {
    multiset(kept)[f] == if Lower(f.name) in names then 0 else multiset(fields)[f]
  }

  lemma CountOneMore(fields: seq<Header>, kept: seq<Header>, names: set<string>, f: Header, last: Header)
    requires Counted(fields, kept, names, f)
    ensures Counted(fields + [last], if Lower(last.name) in names then kept else kept + [last], names, f)
  {
    assert multiset(fields + [last]) == multiset(fields) + multiset{last};
    assert multiset(kept + [last]) == multiset(kept) + multiset{last};
  }

  /** Stripping keeps exactly the other headers, as often as they occurred. */
  lemma {:induction false} StripCounts(fields: seq<Header>, names: set<string>, f: Header)
    ensures Counted(fields, Strip(fields, names), names, f)
  {
    if fields != [] {
      var before, last := fields[..|fields| - 1], fields[|fields| - 1];
      StripCounts(before, names, f);
      CountOneMore(before, Strip(before, names), names, f, last);
      assert fields == before + [last];
      assert Strip(before, names) + [] == Strip(before, names);
    }
  }

  /** A name is nominated exactly when some piece of some Connection line nominates it. */
  lemma {:induction false} NominatedByAnyMeans(pieces: seq<string>, name: string)
    ensures name in NominatedByAny(pieces) <==> exists k :: 0 <= k < |pieces| && name in NominatedBy(pieces[k])
  {
    if pieces != [] {
      NominatedByAnyMeans(pieces[..|pieces| - 1], name);
    }
  }

  /** Piece k of this header nominates `name` as hop-by-hop. */
  ghost predicate NominatesAt(f: Header, k: nat, name: string) {
    && Lower(f.name) == Lower(CONNECTION) && k < |Split(f.value)|
    && var token := TrimSpace(Split(f.value)[k]);
       token != "" && !IsConnectionOption(token) && Lower(token) == name
  }

  ghost predicate Nominates(f: Header, name: string) {
    exists k :: NominatesAt(f, k, name)
  }

  lemma LineNominates(f: Header, name: string)
    requires Lower(f.name) == Lower(CONNECTION)
    ensures name in NominatedByAny(Split(f.value)) <==> Nominates(f, name)
  {
    NominatedByAnyMeans(Split(f.value), name);
    if k :| 0 <= k < |Split(f.value)| && name in NominatedBy(Split(f.value)[k]) {
      assert NominatesAt(f, k, name);
    }
    if k: nat :| NominatesAt(f, k, name) {
      assert name in NominatedBy(Split(f.value)[k]);
    }
  }

  /** A name is nominated exactly when some piece of some Connection line of the list nominates it. */
  lemma {:induction false} NominatedMeans(fields: seq<Header>, name: string)
    ensures name in Nominated(fields) <==> exists j :: 0 <= j < |fields| && Nominates(fields[j], name)
  {
    if fields != [] {
      var before, last := fields[..|fields| - 1], fields[|fields| - 1];
      NominatedMeans(before, name);
      assert fields == before + [last];
      if Lower(last.name) == Lower(CONNECTION) {
        LineNominates(last, name);
        var lines := Values(before, CONNECTION) + [last.value];
        assert Values(fields, CONNECTION) == lines && lines[..|lines| - 1] == Values(before, CONNECTION);
      } else {
        assert Values(fields, CONNECTION) == Values(before, CONNECTION);
      }
    }
  }

  ghost predicate Ascending(places: seq<nat>) {
    forall a, b :: 0 <= a < b < |places| ==> places[a] < places[b]
  }

  /** `kept` holds the headers of `fields` at these places. */
  ghost predicate KeepsPlaces(fields: seq<Header>, kept: seq<Header>, places: seq<nat>) {
    |places| == |kept| && forall k :: 0 <= k < |places| ==> KeepsPlace(fields, kept, places, k)
  }

  ghost predicate KeepsPlace(fields: seq<Header>, kept: seq<Header>, places: seq<nat>, k: nat)
    requires k < |places| == |kept|
  {
    places[k] < |fields| && kept[k] == fields[places[k]]
  }

  lemma KeepsOneMore(fields: seq<Header>, kept: seq<Header>, places: seq<nat>, last: Header)
    requires KeepsPlaces(fields, kept, places) && Ascending(places)
    ensures KeepsPlaces(fields + [last], kept, places)
    ensures KeepsPlaces(fields + [last], kept + [last], places + [|fields|]) && Ascending(places + [|fields|])
  {
    forall k | 0 <= k < |places|
      ensures KeepsPlace(fields + [last], kept, places, k)
      ensures KeepsPlace(fields + [last], kept + [last], places + [|fields|], k)
    {
      assert KeepsPlace(fields, kept, places, k);
    }
    var places' := places + [|fields|];
    forall a, b | 0 <= a < b < |places'| ensures places'[a] < places'[b] {
      assert KeepsPlace(fields, kept, places, a);
    }
  }

  ghost predicate Chosen(fields: seq<Header>, names: set<string>, places: seq<nat>, i: nat)
    requires i < |fields|
  {
    i in places <==> Lower(fields[i].name) !in names
  }

  lemma {:induction false} StripPlaces(fields: seq<Header>, names: set<string>) returns (places: seq<nat>)
    ensures KeepsPlaces(fields, Strip(fields, names), places) && Ascending(places)
    ensures forall i :: 0 <= i < |fields| ==> Chosen(fields, names, places, i)
  {
    places := [];
    if fields != [] {
      var before, n := fields[..|fields| - 1], |fields| - 1;
      var earlier := StripPlaces(before, names);
      assert fields == before + [fields[n]];
      KeepsOneMore(before, Strip(before, names), earlier, fields[n]);
      assert Strip(before, names) + [] == Strip(before, names);
      places := if Lower(fields[n].name) in names then earlier else earlier + [n];
      assert n !in earlier by {
        forall k | 0 <= k < |earlier| ensures earlier[k] != n {
          assert KeepsPlace(before, Strip(before, names), earlier, k);
        }
      }
      forall i | 0 <= i < |fields| ensures Chosen(fields, names, places, i) {
        assert i < n ==> Chosen(before, names, earlier, i);
      }
    }
  }

  /** A header that section 7.6.1 of RFC 9110 lets through: not on the fixed list, and nominated by no
      Connection line. */
  ghost predicate IsEndToEnd(fields: seq<Header>, name: string) {
    name !in LowerAll(HOP_HEADERS) && forall j :: 0 <= j < |fields| ==> !Nominates(fields[j], name)
  }

  /** Exactly the end-to-end headers leave the proxy, each as often as it came and in the same order. */
  lemma EndToEndKeepsExactly(fields: seq<Header>) returns (places: seq<nat>)
    ensures KeepsPlaces(fields, EndToEnd(fields), places) && Ascending(places)
    ensures forall i :: 0 <= i < |fields| ==> (i in places <==> IsEndToEnd(fields, Lower(fields[i].name)))
  {
    places := StripPlaces(fields, Nominated(fields) + LowerAll(HOP_HEADERS));
    forall i | 0 <= i < |fields| ensures i in places <==> IsEndToEnd(fields, Lower(fields[i].name)) {
      assert Chosen(fields, Nominated(fields) + LowerAll(HOP_HEADERS), places, i);
      NominatedMeans(fields, Lower(fields[i].name));
    }
  }

  lemma {:induction false} StrippedHasNoValues(fields: seq<Header>, names: set<string>, key: string)
    requires Lower(key) in names
    ensures Values(Strip(fields, names), key) == []
  {
    if fields != [] {
      var kept, last := Strip(fields[..|fields| - 1], names), fields[|fields| - 1];
      StrippedHasNoValues(fields[..|fields| - 1], names, key);
      ValuesExtend(kept, last, key);
      assert kept + [] == kept;
    }
  }

  lemma {:induction false} StripKeepsValues(fields: seq<Header>, names: set<string>, key: string)
    requires Lower(key) !in names
    ensures Values(Strip(fields, names), key) == Values(fields, key)
  {
    if fields != [] {
      var before, last := fields[..|fields| - 1], fields[|fields| - 1];
      StripKeepsValues(before, names, key);
      ValuesExtend(Strip(before, names), last, key);
      assert Strip(before, names) + [] == Strip(before, names);
    }
  }

  // ---------- setting headers ----------

  /** The headers called `name` after a change: the one value it was set to, or what they were. */
  ghost predicate HeaderChanged(was: seq<Header>, now: seq<Header>, changes: map<string, string>, name: string) {
    Values(now, name) == if Lower(name) in changes then [changes[Lower(name)]] else Values(was, name)
  }

  /** Each of the names in `changes`, in lower case, now has exactly this one value; all other headers
      are as they were. */
  ghost predicate HeadersChanged(was: seq<Header>, now: seq<Header>, changes: map<string, string>) {
    forall name :: HeaderChanged(was, now, changes, name)
  }

  lemma SetValues(fields: seq<Header>, key: string, value: string, name: string)
    ensures Values(WithHeader(fields, key, value), name)
         == if Lower(name) == Lower(key) then [value] else Values(fields, name)
  {
    ValuesExtend(Strip(fields, {Lower(key)}), Header(key, value), name);
    if Lower(name) == Lower(key) {
      StrippedHasNoValues(fields, {Lower(key)}, name);
    } else {
      StripKeepsValues(fields, {Lower(key)}, name);
    }
  }

  lemma OneHeaderSet(fields: seq<Header>, key: string, value: string)
    ensures HeadersChanged(fields, WithHeader(fields, key, value), map[Lower(key) := value])
  {
    forall name ensures HeaderChanged(fields, WithHeader(fields, key, value), map[Lower(key) := value], name) {
      SetValues(fields, key, value, name);
    }
  }

  lemma TwoHeadersSet(fields: seq<Header>, key: string, value: string, key': string, value': string)
    ensures HeadersChanged(fields, WithHeader(WithHeader(fields, key, value), key', value'),
                           map[Lower(key) := value, Lower(key') := value'])
  {
    var once := WithHeader(fields, key, value);
    forall name
      ensures HeaderChanged(fields, WithHeader(once, key', value'),
                            map[Lower(key) := value, Lower(key') := value'], name)
    {
      SetValues(fields, key, value, name);
      SetValues(once, key', value', name);
    }
  }

  lemma HopNamesOneToFive()
    ensures Lower(HOP_HEADERS[0]) == "connection" && Lower(HOP_HEADERS[1]) == "proxy-connection"
    ensures Lower(HOP_HEADERS[2]) == "keep-alive" && Lower(HOP_HEADERS[5]) == "te"
    ensures Lower(HOP_HEADERS[6]) == "trailer"
  {
  }

  lemma HopNamesSixToNine()
    ensures Lower(HOP_HEADERS[3]) == "proxy-authenticate" && Lower(HOP_HEADERS[4]) == "proxy-authorization"
    ensures Lower(HOP_HEADERS[7]) == "transfer-encoding" && Lower(HOP_HEADERS[8]) == "upgrade"
  {
  }

  /** The names on the fixed hop-by-hop list, in lower case. */
  lemma HopListIs(name: string)
    ensures name in LowerAll(HOP_HEADERS) <==> name in [
      "connection", "proxy-connection", "keep-alive", "proxy-authenticate", "proxy-authorization",
      "te", "trailer", "transfer-encoding", "upgrade"]
  {
    HopNamesOneToFive();
    HopNamesSixToNine();
    assert name in LowerAll(HOP_HEADERS) <==> exists k :: 0 <= k < |HOP_HEADERS| && name == Lower(HOP_HEADERS[k]);
  }

  lemma HopListHasConnection()
    ensures Lower(CONNECTION) in LowerAll(HOP_HEADERS)
  {
    assert HOP_HEADERS[0] == CONNECTION;
  }

  /** A second pass removes nothing: after the first there is no Connection header left. */
  lemma EndToEndIdempotent(fields: seq<Header>)
    ensures EndToEnd(EndToEnd(fields)) == EndToEnd(fields)
  {
    var hop, names := LowerAll(HOP_HEADERS), Nominated(fields) + LowerAll(HOP_HEADERS);
    HopListHasConnection();
    StrippedHasNoValues(fields, names, CONNECTION);
    assert Nominated(EndToEnd(fields)) == {};
    StripTwice(fields, names, {} + hop);
    assert names + ({} + hop) == names;
  }

  // ---------- several Connection lines are one list ----------

  /** The pieces hold no comma, and joined by commas they are the line again. */
  lemma {:induction false} SplitRoundTrip(s: string)
    ensures JoinLines(Split(s)) == s && forall k :: 0 <= k < |Split(s)| ==> ',' !in Split(s)[k]
  {
    if s != [] {
      var rest := Split(s[1..]);
      SplitRoundTrip(s[1..]);
      if s[0] == ',' {
        JoinPrepend("", rest);
        assert [s[0]] + s[1..] == s;
      } else {
        JoinLonger(s[0], rest);
        assert [s[0]] + s[1..] == s;
      }
    }
  }

  lemma {:induction false} JoinPrepend(a: string, values: seq<string>)
    requires values != []
    ensures JoinLines([a] + values) == a + "," + JoinLines(values)
  {
    var all := [a] + values;
    if |values| == 1 {
      assert all[..1] == [a];
    } else {
      JoinPrepend(a, values[..|values| - 1]);
      assert all[..|all| - 1] == [a] + values[..|values| - 1];
    }
  }

  lemma {:induction false} JoinLonger(c: char, values: seq<string>)
    requires values != []
    ensures JoinLines([[c] + values[0]] + values[1..]) == [c] + JoinLines(values)
  {
    var all := [[c] + values[0]] + values[1..];
    if |values| > 1 {
      JoinLonger(c, values[..|values| - 1]);
      assert all[..|all| - 1] == [[c] + values[0]] + values[..|values| - 1][1..];
    }
  }


  lemma {:induction false} SplitConcat(a: string, b: string)
    ensures Split(a + "," + b) == Split(a) + Split(b)
  {
    var s := a + "," + b;
    if a == [] {
      assert s[1..] == b;
    } else {
      assert s[0] == a[0] && s[1..] == a[1..] + "," + b;
      SplitConcat(a[1..], b);
    }
  }

  lemma {:induction false} NominatedConcat(a: seq<string>, b: seq<string>)
    ensures NominatedByAny(a + b) == NominatedByAny(a) + NominatedByAny(b)
  {
    if b == [] {
      assert a + b == a;
    } else {
      assert (a + b)[..|a + b| - 1] == a + b[..|b| - 1];
      NominatedConcat(a, b[..|b| - 1]);
    }
  }

  function JoinLines(values: seq<string>): string {
    if values == [] then ""
    else if |values| == 1 then values[0]
    else JoinLines(values[..|values| - 1]) + "," + values[|values| - 1]
  }

  /** Separate Connection lines nominate what one comma-joined line does (section 5.3 of RFC 9110). */
  lemma {:induction false} JoinedLineNominatesTheSame(values: seq<string>)
    ensures NominatedByLines([JoinLines(values)]) == NominatedByLines(values)
  {
    var joined := JoinLines(values);
    assert [joined][..0] == [];
    assert NominatedByLines([joined]) == NominatedByAny(Split(joined));
    if values == [] {
      assert Split("")[..0] == [] && NominatedBy("") == {};
    } else {
      var before, last := values[..|values| - 1], values[|values| - 1];
      JoinedLineNominatesTheSame(before);
      assert [JoinLines(before)][..0] == [];
      SplitConcat(JoinLines(before), last);
      NominatedConcat(Split(JoinLines(before)), Split(last));
    }
  }

  /** The list with its Connection lines joined into one line at the end. */
  function Joined(fields: seq<Header>): seq<Header> {
    Strip(fields, {Lower(CONNECTION)}) + [Header(CONNECTION, JoinLines(Values(fields, CONNECTION)))]
  }

  lemma JoinedNominatesTheSame(fields: seq<Header>)
    ensures Nominated(Joined(fields)) == Nominated(fields)
  {
    var rest, line := Strip(fields, {Lower(CONNECTION)}), Header(CONNECTION, JoinLines(Values(fields, CONNECTION)));
    StrippedHasNoValues(fields, {Lower(CONNECTION)}, CONNECTION);
    ValuesExtend(rest, line, CONNECTION);
    assert Values(Joined(fields), CONNECTION) == [line.value];
    JoinedLineNominatesTheSame(Values(fields, CONNECTION));
  }

  lemma JoinedStripsTheSame(fields: seq<Header>, names: set<string>)
    requires Lower(CONNECTION) in names
    ensures Strip(Joined(fields), names) == Strip(fields, names)
  {
    var rest, line := Strip(fields, {Lower(CONNECTION)}), Header(CONNECTION, JoinLines(Values(fields, CONNECTION)));
    StripExtend(rest, line, names);
    StripTwice(fields, {Lower(CONNECTION)}, names);
    assert {Lower(CONNECTION)} + names == names;
  }

  /** So a message with its Connection lines joined into one leaves the proxy the same. */
  lemma JoinedConnectionLines(fields: seq<Header>)
    ensures EndToEnd(Joined(fields)) == EndToEnd(fields)
  {
    HopListHasConnection();
    JoinedNominatesTheSame(fields);
    JoinedStripsTheSame(fields, Nominated(fields) + LowerAll(HOP_HEADERS));
  }
}
