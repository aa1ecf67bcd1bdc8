/** The search of JSON-RPC parameters for an operator, and the hook that logs a redacted request. */
module RuneSearch {
  import opened JsonValues
  import opened Redaction
  import opened Rune
  import opened Text
  import opened Wrappers

  const RUNE_KEY := "rune"

  predicate IsRuneKey(lower: Lowering, key: string) { Contains(lower(key), RUNE_KEY) }

  /** The operator carried by one key and value, not looking below it. */
  function OperatorAt(lower: Lowering, key: string, value: Json): Option<string> {
    if IsRuneKey(lower, key) && value.String? then
      match RuneTag(value.s)
      case Ok(operator) => operator
      case Err(_) => None
    else None
  }

  function SearchEntries(lower: Lowering, entries: seq<Entry>): Option<string>
    decreases entries
  {
    if entries == [] then None
    else
      var found := Search(lower, entries[0].key, entries[0].value);
      if found.Some? then found else SearchEntries(lower, entries[1..])
  }

  function SearchItems(lower: Lowering, items: seq<Json>): Option<string>
    decreases items
  {
    if items == [] then None
    else
      var found := Search(lower, "", items[0]);
      if found.Some? then found else SearchItems(lower, items[1..])
  }

  function Search(lower: Lowering, key: string, value: Json): Option<string>
    decreases value
  {
    var here := OperatorAt(lower, key, value);
    if here.Some? then here
    else
      match value
      case Object(entries) => SearchEntries(lower, entries)
      case Array(items) => SearchItems(lower, items)
      case _ => None
  }

  // ----- the flat specification

  /** Every key and value of a tree, parents before children, in iteration order. */
  function PreOrder(key: string, value: Json): seq<Entry>
    decreases value
  {
    [Entry(key, value)] +
    match value
    case Object(entries) => PreOrderEntries(entries)
    case Array(items) => PreOrderItems(items)
    case _ => []
  }

  function PreOrderEntries(entries: seq<Entry>): seq<Entry>
    decreases entries
  {
    if entries == [] then [] else PreOrder(entries[0].key, entries[0].value) + PreOrderEntries(entries[1..])
  }

  function PreOrderItems(items: seq<Json>): seq<Entry>
    decreases items
  {
    if items == [] then [] else PreOrder("", items[0]) + PreOrderItems(items[1..])
  }

  function FirstIn(lower: Lowering, nodes: seq<Entry>): Option<string> {
    if nodes == [] then None
    else
      var here := OperatorAt(lower, nodes[0].key, nodes[0].value);
      if here.Some? then here else FirstIn(lower, nodes[1..])
  }

  lemma {:induction false} FirstInAppend(lower: Lowering, a: seq<Entry>, b: seq<Entry>)
    ensures FirstIn(lower, a + b) == if FirstIn(lower, a).Some? then FirstIn(lower, a) else FirstIn(lower, b)
  {
    if a == [] {
      assert a + b == b;
    } else {
      assert (a + b)[1..] == a[1..] + b;
      FirstInAppend(lower, a[1..], b);
    }
  }

  lemma {:induction false} SearchIsFirst(lower: Lowering, key: string, value: Json)
    ensures Search(lower, key, value) == FirstIn(lower, PreOrder(key, value))
    decreases value
  {
    var below := PreOrder(key, value)[1..];
    match value {
      case Object(entries) => SearchEntriesIsFirst(lower, entries);
      case Array(items) => SearchItemsIsFirst(lower, items);
      case _ =>
    }
    assert below == match value
                    case Object(entries) => PreOrderEntries(entries)
                    case Array(items) => PreOrderItems(items)
                    case _ => [];
  }

  lemma {:induction false} SearchEntriesIsFirst(lower: Lowering, entries: seq<Entry>)
    ensures SearchEntries(lower, entries) == FirstIn(lower, PreOrderEntries(entries))
    decreases entries
  {
    if entries == [] {
    } else {
      SearchIsFirst(lower, entries[0].key, entries[0].value);
      SearchEntriesIsFirst(lower, entries[1..]);
      FirstInAppend(lower, PreOrder(entries[0].key, entries[0].value), PreOrderEntries(entries[1..]));
    }
  }

  lemma {:induction false} SearchItemsIsFirst(lower: Lowering, items: seq<Json>)
    ensures SearchItems(lower, items) == FirstIn(lower, PreOrderItems(items))
    decreases items
  {
    if items == [] {
    } else {
      SearchIsFirst(lower, "", items[0]);
      SearchItemsIsFirst(lower, items[1..]);
      FirstInAppend(lower, PreOrder("", items[0]), PreOrderItems(items[1..]));
    }
  }

  lemma {:induction false} FirstInExact(lower: Lowering, nodes: seq<Entry>, operator: string)
    ensures FirstIn(lower, nodes) == Some(operator)
            <==> exists i :: 0 <= i < |nodes| && OperatorAt(lower, nodes[i].key, nodes[i].value) == Some(operator)
                             && forall j :: 0 <= j < i ==> OperatorAt(lower, nodes[j].key, nodes[j].value).None?
  {
    if nodes != [] && OperatorAt(lower, nodes[0].key, nodes[0].value).None? {
      var rest := nodes[1..];
      FirstInExact(lower, rest, operator);
      assert forall j :: 1 <= j < |nodes| ==> nodes[j] == rest[j - 1];
      if i :| 0 <= i < |rest| && OperatorAt(lower, rest[i].key, rest[i].value) == Some(operator)
              && forall j :: 0 <= j < i ==> OperatorAt(lower, rest[j].key, rest[j].value).None? {
        assert nodes[i + 1] == rest[i];
      }
      if i :| 0 <= i < |nodes| && OperatorAt(lower, nodes[i].key, nodes[i].value) == Some(operator)
              && forall j :: 0 <= j < i ==> OperatorAt(lower, nodes[j].key, nodes[j].value).None? {
        assert i > 0 && rest[i - 1] == nodes[i];
        assert forall j :: 0 <= j < i - 1 ==> rest[j] == nodes[j + 1];
      }
    }
  }

  /** The recursive search returns the operator of the first node, in pre-order, that carries one;
      runes that do not decode or carry no tag are passed over. */
  lemma {:induction false} SearchExact(lower: Lowering, key: string, value: Json, operator: string)
    ensures var nodes := PreOrder(key, value);
            Search(lower, key, value) == Some(operator)
            <==> exists i :: 0 <= i < |nodes| && OperatorAt(lower, nodes[i].key, nodes[i].value) == Some(operator)
                             && forall j :: 0 <= j < i ==> OperatorAt(lower, nodes[j].key, nodes[j].value).None?
  {
    SearchIsFirst(lower, key, value);
    FirstInExact(lower, PreOrder(key, value), operator);
  }

  // ----- the search by position

  /** The operator at a position: a string under a key that contains "rune", decoding to a rune with a tag. */
  function CarriedAt(lower: Lowering, key: string, value: Json, path: seq<nat>): Option<string> {
    match NodeAt(key, value, path)
    case Some(Entry(k, String(s))) =>
      if Contains(lower(k), "rune") && RuneTag(s).Ok? then RuneTag(s).value else None
    case _ => None
  }

  lemma {:induction false} NothingFound(lower: Lowering, key: string, value: Json, path: seq<nat>)
    requires Search(lower, key, value).None?
    ensures CarriedAt(lower, key, value, path).None?
    decreases path
  {
    hide RuneTag;
    if path == [] {
    } else {
      match value {
        case Object(entries) =>
          if path[0] < |entries| {
            NoEntryFound(lower, entries, path[0]);
            NothingFound(lower, entries[path[0]].key, entries[path[0]].value, path[1..]);
          }
        case Array(items) =>
          if path[0] < |items| {
            NoItemFound(lower, items, path[0]);
            NothingFound(lower, "", items[path[0]], path[1..]);
          }
        case _ =>
      }
    }
  }

  lemma {:induction false} NoEntryFound(lower: Lowering, entries: seq<Entry>, i: nat)
    requires i < |entries| && SearchEntries(lower, entries).None?
    ensures Search(lower, entries[i].key, entries[i].value).None?
  {
    hide Search;
    if i == 0 {
    } else {
      NoEntryFound(lower, entries[1..], i - 1);
    }
  }

  lemma {:induction false} NoItemFound(lower: Lowering, items: seq<Json>, i: nat)
    requires i < |items| && SearchItems(lower, items).None?
    ensures Search(lower, "", items[i]).None?
  {
    hide Search;
    if i == 0 {
    } else {
      NoItemFound(lower, items[1..], i - 1);
    }
  }

  lemma {:induction false} FirstEntry(lower: Lowering, entries: seq<Entry>) returns (i: nat)
    requires SearchEntries(lower, entries).Some?
    ensures i < |entries| && Search(lower, entries[i].key, entries[i].value) == SearchEntries(lower, entries)
    ensures forall j :: 0 <= j < i ==> Search(lower, entries[j].key, entries[j].value).None?
  {
    hide Search;
    if Search(lower, entries[0].key, entries[0].value).Some? {
      i := 0;
    } else {
      var k := FirstEntry(lower, entries[1..]);
      assert forall j :: 1 <= j < k + 1 ==> entries[j] == entries[1..][j - 1];
      i := k + 1;
    }
  }

  lemma {:induction false} FirstItem(lower: Lowering, items: seq<Json>) returns (i: nat)
    requires SearchItems(lower, items).Some?
    ensures i < |items| && Search(lower, "", items[i]) == SearchItems(lower, items)
    ensures forall j :: 0 <= j < i ==> Search(lower, "", items[j]).None?
  {
    hide Search;
    if Search(lower, "", items[0]).Some? {
      i := 0;
    } else {
      var k := FirstItem(lower, items[1..]);
      assert forall j :: 1 <= j < k + 1 ==> items[j] == items[1..][j - 1];
      i := k + 1;
    }
  }

  lemma {:induction false} FoundFirst(lower: Lowering, key: string, value: Json) returns (path: seq<nat>)
    requires Search(lower, key, value).Some?
    ensures CarriedAt(lower, key, value, path) == Search(lower, key, value)
    ensures forall p :: Before(p, path) ==> CarriedAt(lower, key, value, p).None?
    decreases value
  {
    hide RuneTag, SearchEntries, SearchItems;
    if OperatorAt(lower, key, value).Some? {
      path := [];
    } else {
      match value {
        case Object(entries) =>
          var i := FirstEntry(lower, entries);
          var below := FoundFirst(lower, entries[i].key, entries[i].value);
          path := [i] + below;
          assert path[1..] == below;
          forall p | Before(p, path)
            ensures CarriedAt(lower, key, value, p).None?
          {
            if p != [] && p[0] < i {
              NothingFound(lower, entries[p[0]].key, entries[p[0]].value, p[1..]);
            } else if p != [] {
              assert Before(p[1..], path[1..]);
              assert CarriedAt(lower, entries[i].key, entries[i].value, p[1..]).None?;
            }
          }
        case Array(items) =>
          var i := FirstItem(lower, items);
          var below := FoundFirst(lower, "", items[i]);
          path := [i] + below;
          assert path[1..] == below;
          forall p | Before(p, path)
            ensures CarriedAt(lower, key, value, p).None?
          {
            if p != [] && p[0] < i {
              NothingFound(lower, "", items[p[0]], p[1..]);
            } else if p != [] {
              assert Before(p[1..], path[1..]);
              assert CarriedAt(lower, "", items[i], p[1..]).None?;
            }
          }
      }
    }
  }

  /** The search finds an operator if and only if some position carries it and no position before that one, in
      document order, carries any. It finds none if and only if no position carries one. */
  lemma {:induction false} SearchByPosition(lower: Lowering, key: string, value: Json, operator: string)
    ensures Search(lower, key, value) == Some(operator)
            <==> exists path :: CarriedAt(lower, key, value, path) == Some(operator)
                                && forall p :: Before(p, path) ==> CarriedAt(lower, key, value, p).None?
    ensures Search(lower, key, value).None? <==> forall path :: CarriedAt(lower, key, value, path).None?
  {
    hide Search, CarriedAt;
    if Search(lower, key, value).None? {
      forall path
        ensures CarriedAt(lower, key, value, path).None?
      {
        NothingFound(lower, key, value, path);
      }
    } else {
      var first := FoundFirst(lower, key, value);
      assert CarriedAt(lower, key, value, first).Some?;
      if path :| CarriedAt(lower, key, value, path) == Some(operator)
                 && forall p :: Before(p, path) ==> CarriedAt(lower, key, value, p).None? {
        BeforeTotal(first, path);
      }
    }
  }

  // ----- search and redaction together

  lemma {:induction false} RuneKeysAreSensitive(lower: Lowering, key: string)
    requires IsRuneKey(lower, key)
    ensures IsSensitiveKey(lower, key)
  {
    assert DANGER_FIELDS[0] == RUNE_KEY;
  }

  lemma {:induction false} NothingInRedacted(lower: Lowering, key: string, value: Json)
    requires Redacted(lower, key, value)
    ensures Search(lower, key, value).None?
    decreases value
  {
    MaskIsNoRune();
    if IsRuneKey(lower, key) {
      RuneKeysAreSensitive(lower, key);
    }
    if !IsSensitiveKey(lower, key) {
      match value {
        case Object(entries) => NothingInEntries(lower, entries);
        case Array(items) => NothingInItems(lower, items);
        case _ =>
      }
    }
  }

  lemma {:induction false} NothingInEntries(lower: Lowering, entries: seq<Entry>)
    requires forall i :: 0 <= i < |entries| ==> Redacted(lower, entries[i].key, entries[i].value)
    ensures SearchEntries(lower, entries).None?
    decreases entries
  {
    if entries == [] {
    } else {
      NothingInRedacted(lower, entries[0].key, entries[0].value);
      assert forall i :: 0 <= i < |entries| - 1 ==> entries[1..][i] == entries[i + 1];
      NothingInEntries(lower, entries[1..]);
    }
  }

  lemma {:induction false} NothingInItems(lower: Lowering, items: seq<Json>)
    requires forall i :: 0 <= i < |items| ==> Redacted(lower, "", items[i])
    ensures SearchItems(lower, items).None?
    decreases items
  {
    if items == [] {
    } else {
      NothingInRedacted(lower, "", items[0]);
      assert forall i :: 0 <= i < |items| - 1 ==> items[1..][i] == items[i + 1];
      NothingInItems(lower, items[1..]);
    }
  }

  /** No caller can be extracted from a redacted tree. */
  lemma {:induction false} NothingExtractable(lower: Lowering, key: string, value: Json)
    ensures Search(lower, key, Sanitize(lower, key, value)).None?
  {
    SanitizedIsRedacted(lower, key, value);
    NothingInRedacted(lower, key, Sanitize(lower, key, value));
  }

  // ----- the hook

  /** Top-level parameters are an object or an array. */
  datatype Params = ObjectParams(entries: seq<Entry>) | ArrayParams(items: seq<Json>) {
    function AsValue(): Json {
      match this
      case ObjectParams(entries) => Object(entries)
      case ArrayParams(items) => Array(items)
    }
  }

  function SanitizeParams(lower: Lowering, params: Params): Params {
    match params
    case ObjectParams(entries) => ObjectParams(SanitizeEntries(lower, entries))
    case ArrayParams(items) => ArrayParams(SanitizeItems(lower, items))
  }

  function SearchParams(lower: Lowering, params: Params): Option<string> {
    match params
    case ObjectParams(entries) => SearchEntries(lower, entries)
    case ArrayParams(items) => SearchItems(lower, items)
  }

  datatype RpcLog = RpcLog(method_: string, requestId: string, body: Params, caller: Option<string>)

  predicate MethodInLogList(rpcList: set<string>, method_: string) {
    rpcList == {} || method_ in rpcList
  }

  /** What the hook uploads for a command, if anything. */
  function LogFor(lower: Lowering, rpcList: set<string>, method_: string, requestId: string, params: Params): Option<RpcLog> {
    if MethodInLogList(rpcList, method_) then
      Some(RpcLog(method_, requestId, SanitizeParams(lower, params), SearchParams(lower, params)))
    else None
  }

  /** A command is uploaded if and only if the list is empty or names its method, and under its own method and
      request id. */
  lemma {:induction false} UploadedExact(lower: Lowering, rpcList: set<string>, method_: string, requestId: string, params: Params)
    ensures var log := LogFor(lower, rpcList, method_, requestId, params);
            && (log.Some? <==> rpcList == {} || method_ in rpcList)
            && (log.Some? ==> log.value.method_ == method_ && log.value.requestId == requestId)
  {
  }

  /** The logged caller by position: that of the first node of the parameters, in document order, that is a rune
      with a tag under a key containing "rune"; none exactly if there is no such node. */
  lemma {:induction false} CallerByPosition(lower: Lowering, rpcList: set<string>, method_: string, requestId: string, params: Params, operator: string)
    ensures var log, v := LogFor(lower, rpcList, method_, requestId, params), params.AsValue();
            log.Some? ==>
              && (log.value.caller == Some(operator)
                  <==> exists path :: CarriedAt(lower, "", v, path) == Some(operator)
                                      && forall p :: Before(p, path) ==> CarriedAt(lower, "", v, p).None?)
              && (log.value.caller.None? <==> forall path :: CarriedAt(lower, "", v, path).None?)
  {
    hide CarriedAt, Search;
    ParamsAgree(lower, params);
    SearchByPosition(lower, "", params.AsValue(), operator);
  }

  /** At any depth of a logged body, what a key that names a secret holds is the mask. */
  lemma {:induction false} LoggedSecretsMasked(lower: Lowering, rpcList: set<string>, method_: string, requestId: string, params: Params, path: seq<nat>)
    ensures var log := LogFor(lower, rpcList, method_, requestId, params);
            log.Some? ==>
              var node := NodeAt("", log.value.body.AsValue(), path);
              node.Some? && NamesSecret(lower(node.value.key)) ==> node.value.value == String("***")
  {
    hide NamesSecret;
    var log := LogFor(lower, rpcList, method_, requestId, params);
    if log.Some? {
      ParamsAgree(lower, params);
      var node := NodeAt("", log.value.body.AsValue(), path);
      if node.Some? && NamesSecret(lower(node.value.key)) {
        SecretsMasked(lower, "", params.AsValue(), path);
      }
    }
  }

  /** Only listed methods are uploaded if and only if the list is not empty. */
  lemma {:induction false} OnlyListedUploaded(lower: Lowering, rpcList: set<string>, requestId: string, params: Params)
    ensures (forall m :: LogFor(lower, rpcList, m, requestId, params).Some? ==> m in rpcList) <==> rpcList != {}
  {
    if rpcList == {} {
      assert LogFor(lower, rpcList, "", requestId, params).Some?;
    }
  }

  /** With an empty list every method is uploaded, with its redacted body and its caller. */
  lemma {:induction false} EmptyListUploadsAll(lower: Lowering, method_: string, requestId: string, params: Params)
    ensures var log := LogFor(lower, {}, method_, requestId, params);
            && log.Some? && log.value.method_ == method_ && log.value.requestId == requestId
            && log.value.body.AsValue() == Sanitize(lower, "", params.AsValue())
            && log.value.caller == FirstIn(lower, PreOrder("", params.AsValue()))
  {
    LoggedCaller(lower, {}, method_, requestId, params);
  }

  /** The top-level functions are the recursive ones on the value under the empty key. */
  lemma {:induction false} ParamsAgree(lower: Lowering, params: Params)
    ensures SanitizeParams(lower, params).AsValue() == Sanitize(lower, "", params.AsValue())
    ensures SearchParams(lower, params) == Search(lower, "", params.AsValue())
  {
    EmptyKeyIsHarmless(lower);
  }

  /** A logged caller is the first operator of the request, comes from a rune under a redacted key,
      and cannot be recovered from the logged body. */
  lemma {:induction false} LoggedCaller(lower: Lowering, rpcList: set<string>, method_: string, requestId: string, params: Params)
    requires LogFor(lower, rpcList, method_, requestId, params).Some?
    ensures var log := LogFor(lower, rpcList, method_, requestId, params).value;
            && log.caller == FirstIn(lower, PreOrder("", params.AsValue()))
            && log.body.AsValue() == Sanitize(lower, "", params.AsValue())
            && SearchParams(lower, log.body).None?
            && Redacted(lower, "", log.body.AsValue())
            && (log.caller.Some? ==>
                  exists i :: 0 <= i < |PreOrder("", params.AsValue())|
                    && var node := PreOrder("", params.AsValue())[i];
                       IsSensitiveKey(lower, node.key) && node.value.String? && RuneTag(node.value.s) == Ok(log.caller))
  {
    var log := LogFor(lower, rpcList, method_, requestId, params).value;
    ParamsAgree(lower, params);
    ParamsAgree(lower, log.body);
    SearchIsFirst(lower, "", params.AsValue());
    NothingExtractable(lower, "", params.AsValue());
    SanitizedIsRedacted(lower, "", params.AsValue());
    if log.caller.Some? {
      var nodes := PreOrder("", params.AsValue());
      SearchExact(lower, "", params.AsValue(), log.caller.value);
      var i :| 0 <= i < |nodes| && OperatorAt(lower, nodes[i].key, nodes[i].value) == log.caller;
      RuneKeysAreSensitive(lower, nodes[i].key);
    }
  }

  /** Two requests whose visible parts are the same leave the same body in the log, whatever their
      runes and other secrets. */
  lemma {:induction false} LoggedBodyHidesSecrets(lower: Lowering, rpcList: set<string>, method_: string, requestId: string, p1: Params, p2: Params)
    requires MethodInLogList(rpcList, method_)
    ensures LogFor(lower, rpcList, method_, requestId, p1).value.body == LogFor(lower, rpcList, method_, requestId, p2).value.body
            <==> LookAlike(lower, "", p1.AsValue(), p2.AsValue())
  {
    ParamsAgree(lower, p1);
    ParamsAgree(lower, p2);
    RedactionKernel(lower, "", p1.AsValue(), p2.AsValue());
  }
}
