/** The callbacks with which the HTTP parser library fills a message.

    The library may cut every piece of text into as many fragments as it likes, empty ones
    included; it is not part of this model, its callback stream is the input. */
module Message {
  import opened Bytes

  datatype Status = Complete | WantMore | Faild

  datatype Header = Header(name: string, value: string)

  /** The accumulators of header assembly.  `saved` is a history: the pairs stored, in order. */
  datatype Assembly = Assembly(
    headers: map<string, string>,
    field: string,
    value: string,
    saved: seq<Header>)

  datatype Callback =
    | OnUrl(at: string)
    | OnHeaderField(at: string)
    | OnHeaderValue(at: string)
    | OnHeadersComplete
    | OnBody(at: string)
    | OnMessageComplete

  datatype Fields = Fields(url: string, assembly: Assembly, body: string, status: Status)

  // ---------------------------------------------------------------- one callback

  function Save(a: Assembly): Assembly {
    if a.value != "" && a.field != "" then
      Assembly(a.headers[a.field := a.value], "", "", a.saved + [Header(a.field, a.value)])
    else a
  }

  function ApplyCallback(m: Fields, c: Callback): Fields {
    match c
    case OnUrl(at) => m.(url := m.url + at)
    case OnHeaderField(at) =>
      var a := Save(m.assembly);
      m.(assembly := a.(field := a.field + at))
    case OnHeaderValue(at) => m.(assembly := m.assembly.(value := m.assembly.value + at))
    case OnHeadersComplete => m.(assembly := Save(m.assembly))
    case OnBody(at) => m.(body := m.body + at)
    case OnMessageComplete => m.(status := Complete)
  }

  function Feed(m: Fields, cs: seq<Callback>): Fields
    decreases |cs|
  {
    if cs == [] then m else Feed(ApplyCallback(m, cs[0]), cs[1..])
  }

  /** It does not matter how the callbacks are spread over the buffers read from the socket. */
  lemma {:induction false} FeedAppend(m: Fields, a: seq<Callback>, b: seq<Callback>)
    ensures Feed(m, a + b) == Feed(Feed(m, a), b)
    decreases |a|
  {
    if a == [] {
      assert a + b == b;
    } else {
      assert (a + b)[1..] == a[1..] + b;
      FeedAppend(ApplyCallback(m, a[0]), a[1..], b);
    }
  }

  // ---------------------------------------------------------------- fragmented messages

  /** The fragments in which the library reports one header; the name has at least one. */
  datatype Cut = Cut(names: seq<string>, values: seq<string>)

  function FieldCallbacks(fragments: seq<string>): seq<Callback> {
    seq(|fragments|, k requires 0 <= k < |fragments| => OnHeaderField(fragments[k]))
  }

  function ValueCallbacks(fragments: seq<string>): seq<Callback> {
    seq(|fragments|, k requires 0 <= k < |fragments| => OnHeaderValue(fragments[k]))
  }

  function UrlCallbacks(fragments: seq<string>): seq<Callback> {
    seq(|fragments|, k requires 0 <= k < |fragments| => OnUrl(fragments[k]))
  }

  function BodyCallbacks(fragments: seq<string>): seq<Callback> {
    seq(|fragments|, k requires 0 <= k < |fragments| => OnBody(fragments[k]))
  }

  /** The header that a cut is a cut of. */
  function Whole(c: Cut): Header {
    Header(Concat(c.names), Concat(c.values))
  }

  function Wholes(cuts: seq<Cut>): (r: seq<Header>)
    ensures |r| == |cuts|
  {
    if cuts == [] then [] else [Whole(cuts[0])] + Wholes(cuts[1..])
  }

  function HeaderCallbacks(cuts: seq<Cut>): seq<Callback> {
    if cuts == [] then []
    else FieldCallbacks(cuts[0].names) + ValueCallbacks(cuts[0].values) + HeaderCallbacks(cuts[1..])
  }

  /** A field name is not empty (section 5.1 of RFC 9112 makes it a token), though a fragment may be. */
  ghost predicate Wellformed(cuts: seq<Cut>) {
    forall k :: 0 <= k < |cuts| ==> cuts[k].names != [] && Concat(cuts[k].names) != ""
  }

  // ---------------------------------------------------------------- what assembly computes

  /** The name pending when a header begins is glued onto the front of its own name, and stays
      pending when the value is empty. */
  function Glue(pending: string, hs: seq<Header>): (seq<Header>, string)
    decreases |hs|
  {
    if hs == [] then ([], pending)
    else if hs[0].value == "" then Glue(pending + hs[0].name, hs[1..])
    else
      var (rest, left) := Glue("", hs[1..]);
      ([Header(pending + hs[0].name, hs[0].value)] + rest, left)
  }

  /** Stores the pairs one after the other: the last of several with one name wins. */
  function StoreAll(m: map<string, string>, hs: seq<Header>): map<string, string>
    decreases |hs|
  {
    if hs == [] then m else StoreAll(m[hs[0].name := hs[0].value], hs[1..])
  }

  // ---------------------------------------------------------------- proofs

  /** Between headers either nothing is accumulated, or a name is, with or without a value. */
  predicate Settled(a: Assembly) {
    a.field == "" ==> a.value == ""
  }

  lemma {:induction false} FeedFieldTail(m: Fields, fragments: seq<string>)
    requires m.assembly.value == ""
    ensures Feed(m, FieldCallbacks(fragments)) ==
            m.(assembly := m.assembly.(field := m.assembly.field + Concat(fragments)))
    decreases |fragments|
  {
    if fragments != [] {
      var m' := ApplyCallback(m, OnHeaderField(fragments[0]));
      assert FieldCallbacks(fragments)[1..] == FieldCallbacks(fragments[1..]);
      FeedFieldTail(m', fragments[1..]);
      assert m.assembly.field + fragments[0] + Concat(fragments[1..]) == m.assembly.field + Concat(fragments);
    } else {
      assert m.assembly.field + "" == m.assembly.field;
    }
  }

  /** A fragmented name first saves the previous header, once, and then appends to what is pending. */
  lemma FeedFields(m: Fields, fragments: seq<string>)
    requires fragments != [] && Settled(m.assembly)
    ensures
      var a := Save(m.assembly);
      Feed(m, FieldCallbacks(fragments)) == m.(assembly := a.(field := a.field + Concat(fragments)))
  {
    var m' := m.(assembly := Save(m.assembly));
    assert ApplyCallback(m, OnHeaderField(fragments[0])) == ApplyCallback(m', OnHeaderField(fragments[0]));
    FeedFieldTail(m', fragments);
  }

  lemma {:induction false} FeedValues(m: Fields, fragments: seq<string>)
    ensures Feed(m, ValueCallbacks(fragments)) ==
            m.(assembly := m.assembly.(value := m.assembly.value + Concat(fragments)))
    decreases |fragments|
  {
    if fragments != [] {
      var m' := ApplyCallback(m, OnHeaderValue(fragments[0]));
      assert ValueCallbacks(fragments)[1..] == ValueCallbacks(fragments[1..]);
      FeedValues(m', fragments[1..]);
      assert m.assembly.value + fragments[0] + Concat(fragments[1..]) == m.assembly.value + Concat(fragments);
    } else {
      assert m.assembly.value + "" == m.assembly.value;
    }
  }

  lemma {:induction false} FeedUrl(m: Fields, fragments: seq<string>)
    ensures Feed(m, UrlCallbacks(fragments)) == m.(url := m.url + Concat(fragments))
    decreases |fragments|
  {
    if fragments != [] {
      assert UrlCallbacks(fragments)[1..] == UrlCallbacks(fragments[1..]);
      FeedUrl(ApplyCallback(m, OnUrl(fragments[0])), fragments[1..]);
      assert m.url + fragments[0] + Concat(fragments[1..]) == m.url + Concat(fragments);
    } else {
      assert m.url + "" == m.url;
    }
  }

  lemma {:induction false} FeedBody(m: Fields, fragments: seq<string>)
    ensures Feed(m, BodyCallbacks(fragments)) == m.(body := m.body + Concat(fragments))
    decreases |fragments|
  {
    if fragments != [] {
      assert BodyCallbacks(fragments)[1..] == BodyCallbacks(fragments[1..]);
      FeedBody(ApplyCallback(m, OnBody(fragments[0])), fragments[1..]);
      assert m.body + fragments[0] + Concat(fragments[1..]) == m.body + Concat(fragments);
    } else {
      assert m.body + "" == m.body;
    }
  }

  /** One header, however it is cut. */
  lemma FeedHeader(m: Fields, c: Cut)
    requires c.names != [] && Settled(m.assembly)
    ensures
      var a := Save(m.assembly);
      Feed(m, FieldCallbacks(c.names) + ValueCallbacks(c.values)) ==
        m.(assembly := a.(field := a.field + Whole(c).name, value := Whole(c).value))
  {
    FeedAppend(m, FieldCallbacks(c.names), ValueCallbacks(c.values));
    FeedFields(m, c.names);
    FeedValues(Feed(m, FieldCallbacks(c.names)), c.values);
    assert "" + Concat(c.values) == Concat(c.values);
  }

  /** What header assembly arrives at from an accumulator without a value. */
  function Outcome(a: Assembly, hs: seq<Header>): Assembly {
    var (pairs, left) := Glue(a.field, hs);
    Assembly(StoreAll(a.headers, pairs), left, "", a.saved + pairs)
  }

  lemma OutcomeStep(a: Assembly, h: Header, hs: seq<Header>)
    requires a.value == "" && h.name != ""
    ensures
      var b := Save(a.(field := a.field + h.name, value := h.value));
      b.value == "" && Outcome(a, [h] + hs) == Outcome(b, hs)
  {
    var b := Save(a.(field := a.field + h.name, value := h.value));
    assert ([h] + hs)[1..] == hs;
    if h.value != "" {
      var pair := Header(a.field + h.name, h.value);
      var (pairs, left) := Glue("", hs);
      assert ([pair] + pairs)[1..] == pairs;
      assert a.saved + [pair] + pairs == a.saved + ([pair] + pairs);
    }
  }

  lemma {:induction false} FeedHeaders(m: Fields, cuts: seq<Cut>)
    requires Wellformed(cuts) && Settled(m.assembly)
    ensures Feed(m, HeaderCallbacks(cuts) + [OnHeadersComplete]) ==
            m.(assembly := Outcome(Save(m.assembly), Wholes(cuts)))
    decreases |cuts|
  {
    var a := Save(m.assembly);
    if cuts == [] {
      assert HeaderCallbacks(cuts) + [OnHeadersComplete] == [OnHeadersComplete];
      assert Feed(m, [OnHeadersComplete]) == ApplyCallback(m, OnHeadersComplete);
      assert a.saved + [] == a.saved;
    } else {
      var first := FieldCallbacks(cuts[0].names) + ValueCallbacks(cuts[0].values);
      var rest := HeaderCallbacks(cuts[1..]) + [OnHeadersComplete];
      assert HeaderCallbacks(cuts) + [OnHeadersComplete] == first + rest;
      FeedAppend(m, first, rest);
      FeedHeader(m, cuts[0]);
      FeedHeaders(Feed(m, first), cuts[1..]);
      OutcomeStep(a, Whole(cuts[0]), Wholes(cuts[1..]));
    }
  }

  // ---------------------------------------------------------------- theorems

  /** All callbacks of one message, in the order the parser makes them. */
  function MessageCallbacks(url: seq<string>, cuts: seq<Cut>, body: seq<string>): seq<Callback> {
    UrlCallbacks(url) + (HeaderCallbacks(cuts) + [OnHeadersComplete]) + (BodyCallbacks(body) + [OnMessageComplete])
  }

  const EMPTY := Fields("", Assembly(map[], "", "", []), "", WantMore)

  /** The exact result for every header list and every fragmentation: the map is the fold over the
      glued list, a trailing name without a value stays in the accumulator, and url and body are the
      concatenations of their fragments. */
  lemma {:induction false} ExactResult(url: seq<string>, cuts: seq<Cut>, body: seq<string>)
    requires Wellformed(cuts)
    ensures
      var (pairs, left) := Glue("", Wholes(cuts));
      Feed(EMPTY, MessageCallbacks(url, cuts, body)) ==
        Fields(Concat(url), Assembly(StoreAll(map[], pairs), left, "", pairs), Concat(body), Complete)
  {
    var us := UrlCallbacks(url);
    var hs := HeaderCallbacks(cuts) + [OnHeadersComplete];
    var bs := BodyCallbacks(body);
    FeedAppend(EMPTY, us + hs, bs + [OnMessageComplete]);
    FeedAppend(EMPTY, us, hs);
    FeedUrl(EMPTY, url);
    var m1 := EMPTY.(url := Concat(url));
    assert "" + Concat(url) == Concat(url);
    FeedHeaders(m1, cuts);
    var (pairs, left) := Glue("", Wholes(cuts));
    assert [] + pairs == pairs;
    var m2 := m1.(assembly := Assembly(StoreAll(map[], pairs), left, "", pairs));
    FeedAppend(m2, bs, [OnMessageComplete]);
    FeedBody(m2, body);
    assert "" + Concat(body) == Concat(body);
    var m3 := m2.(body := Concat(body));
    assert [OnMessageComplete][1..] == [];
    assert Feed(m3, [OnMessageComplete]) == ApplyCallback(m3, OnMessageComplete);
  }

  ghost predicate HasEmptyValue(hs: seq<Header>) {
    exists k :: 0 <= k < |hs| && hs[k].value == ""
  }

  /** Gluing is the identity exactly on lists without an empty value. */
  lemma {:induction false} GlueIsIdentity(hs: seq<Header>)
    ensures Glue("", hs) == (hs, "") <==> !HasEmptyValue(hs)
  {
    if hs != [] {
      assert "" + hs[0].name == hs[0].name;
      GlueShortens(hs[0].name, hs[1..]);
      GlueIsIdentity(hs[1..]);
      if hs[0].value != "" {
        assert HasEmptyValue(hs) <==> HasEmptyValue(hs[1..]) by {
          assert forall k :: 1 <= k < |hs| ==> hs[k] == hs[1..][k - 1];
          if HasEmptyValue(hs) {
            var k :| 0 <= k < |hs| && hs[k].value == "";
            assert hs[1..][k - 1].value == "";
          }
        }
        assert hs == [hs[0]] + hs[1..];
        var (rest, left) := Glue("", hs[1..]);
        assert ([hs[0]] + rest)[1..] == rest;
      }
    }
  }

  lemma {:induction false} GlueShortens(pending: string, hs: seq<Header>)
    ensures |Glue(pending, hs).0| <= |hs|
    decreases |hs|
  {
    if hs != [] {
      if hs[0].value == "" {
        GlueShortens(pending + hs[0].name, hs[1..]);
      } else {
        GlueShortens("", hs[1..]);
      }
    }
  }

  /** Fragmentation invariance: the pairs stored are exactly the headers sent, and nothing is left in
      the accumulators, if and only if no header has an empty value.  The map then is the fold of map
      update over the list, in which the last duplicate wins. */
  lemma {:induction false} HeadersArriveIffNoEmptyValue(url: seq<string>, cuts: seq<Cut>, body: seq<string>)
    requires Wellformed(cuts)
    ensures
      var m := Feed(EMPTY, MessageCallbacks(url, cuts, body));
      var hs := Wholes(cuts);
      && (m.assembly.saved == hs && m.assembly.field == "" <==> !HasEmptyValue(hs))
      && (!HasEmptyValue(hs) ==>
            m == Fields(Concat(url), Assembly(StoreAll(map[], hs), "", "", hs), Concat(body), Complete))
  {
    ExactResult(url, cuts, body);
    GlueIsIdentity(Wholes(cuts));
  }

  /** Two fragmentations of the same message cannot be told apart, however its values look. */
  lemma {:induction false} FragmentationIsInvisible(
      url: seq<string>, cuts: seq<Cut>, body: seq<string>,
      url': seq<string>, cuts': seq<Cut>, body': seq<string>)
    requires Wellformed(cuts) && Wellformed(cuts')
    requires Concat(url) == Concat(url') && Wholes(cuts) == Wholes(cuts') && Concat(body) == Concat(body')
    ensures Feed(EMPTY, MessageCallbacks(url, cuts, body)) == Feed(EMPTY, MessageCallbacks(url', cuts', body'))
  {
    ExactResult(url, cuts, body);
    ExactResult(url', cuts', body');
  }

  /** In the map built by a fold each name has the value of its last occurrence. */
  lemma {:induction false} LastDuplicateWins(m: map<string, string>, hs: seq<Header>, name: string)
    ensures name in StoreAll(m, hs) <==> name in m || exists k :: 0 <= k < |hs| && hs[k].name == name
    ensures forall k :: 0 <= k < |hs| && hs[k].name == name && (forall j :: k < j < |hs| ==> hs[j].name != name) ==>
              name in StoreAll(m, hs) && StoreAll(m, hs)[name] == hs[k].value
    ensures name in m && (forall k :: 0 <= k < |hs| ==> hs[k].name != name) ==>
              name in StoreAll(m, hs) && StoreAll(m, hs)[name] == m[name]
    decreases |hs|
  {
    if hs != [] {
      var m' := m[hs[0].name := hs[0].value];
      LastDuplicateWins(m', hs[1..], name);
      assert forall k :: 1 <= k < |hs| ==> hs[k] == hs[1..][k - 1];
      if name in StoreAll(m, hs) && name !in m && hs[0].name != name {
        var k :| 0 <= k < |hs[1..]| && hs[1..][k].name == name;
        assert hs[k + 1].name == name;
      }
      if exists k :: 0 <= k < |hs| && hs[k].name == name {
        var k :| 0 <= k < |hs| && hs[k].name == name;
        assert k > 0 ==> hs[1..][k - 1].name == name;
      }
    }
  }

  /** A header with an empty value is lost together with the next one's name. */
  lemma EmptyValueCorruptsNextHeader(first: string, second: string, value: string)
    requires first != "" && second != "" && value != ""
    ensures
      var cuts := [Cut([first], []), Cut([second], [value])];
      var m := Feed(EMPTY, MessageCallbacks([], cuts, []));
      && Wellformed(cuts)
      && Wholes(cuts) == [Header(first, ""), Header(second, value)]
      && m.assembly.saved == [Header(first + second, value)]
      && m.assembly.headers == map[first + second := value]
  {
    var a, b := Cut([first], []), Cut([second], [value]);
    ConcatSingle(first);
    ConcatSingle(second);
    ConcatSingle(value);
    assert [a, b][1..] == [b] && [b][1..] == [];
    assert Wholes([b]) == [Whole(b)] && Wholes([a, b]) == [Whole(a)] + Wholes([b]);
    GluesTwo(first, second, value);
    ExactResult([], [a, b], []);
    assert [Header(first + second, value)][1..] == [];
  }

  lemma GluesTwo(first: string, second: string, value: string)
    requires value != ""
    ensures Glue("", [Header(first, ""), Header(second, value)]) == ([Header(first + second, value)], "")
  {
    var hs := [Header(first, ""), Header(second, value)];
    var glued := [Header(first + second, value)];
    assert hs[1..] == [Header(second, value)] && hs[1..][1..] == [];
    assert Glue("", []) == ([], "");
    assert Glue(first, hs[1..]) == (glued + [], "");
    assert glued + [] == glued;
    assert "" + first == first;
    assert Glue("", hs) == Glue("" + first, hs[1..]);
  }

  // ---------------------------------------------------------------- any stream of callbacks

  /** The texts of the four kinds, in the order in which the callbacks bring them. */
  datatype Texts = Texts(url: string, names: string, values: string, body: string)

  function Brings(c: Callback): Texts {
    match c
    case OnUrl(at) => Texts(at, "", "", "")
    case OnHeaderField(at) => Texts("", at, "", "")
    case OnHeaderValue(at) => Texts("", "", at, "")
    case OnBody(at) => Texts("", "", "", at)
    case OnHeadersComplete => Texts("", "", "", "")
    case OnMessageComplete => Texts("", "", "", "")
  }

  function Join(a: Texts, b: Texts): Texts {
    Texts(a.url + b.url, a.names + b.names, a.values + b.values, a.body + b.body)
  }

  function AllTexts(cs: seq<Callback>): Texts {
    if cs == [] then Texts("", "", "", "") else Join(Brings(cs[0]), AllTexts(cs[1..]))
  }

  function Names(hs: seq<Header>): string {
    if hs == [] then "" else Names(hs[..|hs| - 1]) + hs[|hs| - 1].name
  }

  function Values(hs: seq<Header>): string {
    if hs == [] then "" else Values(hs[..|hs| - 1]) + hs[|hs| - 1].value
  }

  /** The texts that a message holds, in its accumulators or stored. */
  function Held(m: Fields): Texts {
    Texts(m.url, Names(m.assembly.saved) + m.assembly.field, Values(m.assembly.saved) + m.assembly.value, m.body)
  }

  lemma SaveHolds(a: Assembly)
    ensures Names(Save(a).saved) + Save(a).field == Names(a.saved) + a.field
    ensures Values(Save(a).saved) + Save(a).value == Values(a.saved) + a.value
  {
    var saved := a.saved + [Header(a.field, a.value)];
    assert saved[..|saved| - 1] == a.saved;
  }

  lemma NothingToAdd(t: Texts)
    ensures t.url + "" == t.url && t.names + "" == t.names && t.values + "" == t.values && t.body + "" == t.body
  {
  }

  lemma CallbackHolds(m: Fields, c: Callback)
    ensures Held(ApplyCallback(m, c)) == Join(Held(m), Brings(c))
  {
    NothingToAdd(Held(m));
    match c
    case OnUrl(at) =>
    case OnHeaderField(at) =>
      SaveHolds(m.assembly);
      Associate(Names(Save(m.assembly).saved), Save(m.assembly).field, at);
    case OnHeaderValue(at) =>
      Associate(Values(m.assembly.saved), m.assembly.value, at);
    case OnHeadersComplete =>
      SaveHolds(m.assembly);
    case OnBody(at) =>
    case OnMessageComplete =>
  }

  lemma JoinAssociates(a: Texts, b: Texts, c: Texts)
    ensures Join(Join(a, b), c) == Join(a, Join(b, c))
  {
    Associate(a.url, b.url, c.url);
    Associate(a.names, b.names, c.names);
    Associate(a.values, b.values, c.values);
    Associate(a.body, b.body, c.body);
  }

  lemma {:induction false} FeedHolds(m: Fields, cs: seq<Callback>)
    ensures Held(Feed(m, cs)) == Join(Held(m), AllTexts(cs))
    decreases |cs|
  {
    if cs == [] {
      NothingToAdd(Held(m));
    } else {
      CallbackHolds(m, cs[0]);
      FeedHolds(ApplyCallback(m, cs[0]), cs[1..]);
      JoinAssociates(Held(m), Brings(cs[0]), AllTexts(cs[1..]));
    }
  }

  lemma {:induction false} StoreSnoc(m: map<string, string>, hs: seq<Header>, h: Header)
    ensures StoreAll(m, hs + [h]) == StoreAll(m, hs)[h.name := h.value]
    decreases |hs|
  {
    if hs == [] {
      assert [] + [h] == [h] && [h][1..] == [];
    } else {
      assert (hs + [h])[1..] == hs[1..] + [h];
      StoreSnoc(m[hs[0].name := hs[0].value], hs[1..], h);
    }
  }

  /** The map is the fold over the pairs stored, none of which has an empty name or value. */
  ghost predicate Stored(a: Assembly) {
    && a.headers == StoreAll(map[], a.saved)
    && (forall k :: 0 <= k < |a.saved| ==> a.saved[k].name != "" && a.saved[k].value != "")
  }

  lemma {:induction false} FeedStores(m: Fields, cs: seq<Callback>)
    requires Stored(m.assembly)
    ensures Stored(Feed(m, cs).assembly)
    ensures Feed(m, cs).status == if OnMessageComplete in cs then Complete else m.status
    decreases |cs|
  {
    if cs != [] {
      var a := m.assembly;
      StoreSnoc(map[], a.saved, Header(a.field, a.value));
      FeedStores(ApplyCallback(m, cs[0]), cs[1..]);
      assert OnMessageComplete in cs <==> cs[0] == OnMessageComplete || OnMessageComplete in cs[1..];
    }
  }

  /** Whatever callbacks come, in whatever order: no byte is lost or moved, neither of url and body nor of
      the header names and the header values, each taken together; the map is the fold over the pairs
      stored, none with an empty part; and the message is complete once it was reported complete. */
  lemma NothingIsLost(cs: seq<Callback>)
    ensures
      var m := Feed(EMPTY, cs);
      && Held(m) == AllTexts(cs)
      && Stored(m.assembly)
      && m.status == (if OnMessageComplete in cs then Complete else WantMore)
  {
    FeedHolds(EMPTY, cs);
    FeedStores(EMPTY, cs);
    var t := AllTexts(cs);
    assert Held(EMPTY) == Texts("", "", "", "");
    assert Join(Texts("", "", "", ""), t) == t;
  }

  // ---------------------------------------------------------------- the object

  /** The message object; the callbacks of the parser append to its fields. */
  class HttpMessage {
    var url: string
    var headers: map<string, string>
    var body: string
    var currentHeaderField: string
    var currentHeaderValue: string
    var messageStatus: Status
    ghost var saved: seq<Header>

    ghost function State(): Fields
      reads this
    {
      Fields(url, Assembly(headers, currentHeaderField, currentHeaderValue, saved), body, messageStatus)
    }

    constructor ()
      ensures State() == EMPTY
    {
      url, headers, body, currentHeaderField, currentHeaderValue := "", map[], "", "", "";
      messageStatus, saved := WantMore, [];
    }

    method SaveHeaders()
      modifies this
      ensures State() == old(State()).(assembly := Save(old(State()).assembly))
    {
      if currentHeaderValue != "" && currentHeaderField != "" {
        headers := headers[currentHeaderField := currentHeaderValue];
        saved := saved + [Header(currentHeaderField, currentHeaderValue)];
        currentHeaderField, currentHeaderValue := "", "";
      }
    }

    method Call(c: Callback)
      modifies this
      ensures State() == ApplyCallback(old(State()), c)
    {
      match c
      case OnUrl(at) =>
        url := url + at;
      case OnHeaderField(at) =>
        SaveHeaders();
        currentHeaderField := currentHeaderField + at;
      case OnHeaderValue(at) =>
        currentHeaderValue := currentHeaderValue + at;
      case OnHeadersComplete =>
        SaveHeaders();
      case OnBody(at) =>
        body := body + at;
      case OnMessageComplete =>
        messageStatus := Complete;
    }

    /** One call of the parser on one buffer: the library makes its callbacks and reports an error or
        not.  An error overrides everything else, a complete message included. */
    method Parse(callbacks: seq<Callback>, error: bool) returns (status: Status)
      modifies this
      ensures
        var fed := Feed(old(State()), callbacks);
        State() == if error then fed.(status := Faild) else fed
      ensures status == messageStatus
    {
      for n := 0 to |callbacks|
        invariant Feed(State(), callbacks[n..]) == Feed(old(State()), callbacks)
      {
        assert callbacks[n..][0] == callbacks[n] && callbacks[n..][1..] == callbacks[n + 1..];
        Call(callbacks[n]);
      }
      if error {
        messageStatus := Faild;
      }
      status := messageStatus;
    }
  }
}
