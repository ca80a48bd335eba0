/**
  The semantic-subject serialiser: a recursive printer over object graphs that
  shares one set of ancestors to detect cycles.
 */
module SemanticSubject {
  import opened Outcomes
  import opened TextOrder
  import opened Members
  import opened JsonText
  import opened CanonicalForm
  import Utf8
  import CanonicalBytes
  import ShortestText

  type Id = nat

  /** A JavaScript value. Unsupported covers undefined, functions, symbols, bigints and numbers that are not finite. */
  datatype Value =
    | Null
    | Bool(b: bool)
    | Str(s: JsString)
    | Num(token: JsString)
    | Unsupported
    | Ref(id: Id)

  /** An object: an array, a plain object with its own members, or anything with another prototype. */
  datatype Node =
    | ArrayNode(items: seq<Value>)
    | ObjectNode(members: seq<Member<Value>>)
    | ForeignNode

  type Heap = map<Id, Node>

  datatype Failure = UnsupportedValue | Cycle | NotPlainObject

  function NodeAt(h: Heap, id: Id): Node {
    if id in h then h[id] else ForeignNode
  }

  /** Property names of one object are distinct. */
  predicate WellKeyedHeap(h: Heap) {
    forall id | id in h :: h[id].ObjectNode? ==> DistinctKeys(h[id].members)
  }

  function Join(parts: seq<JsString>): JsString {
    if parts == [] then []
    else parts[0] + if |parts| == 1 then [] else [COMMA] + Join(parts[1..])
  }

  // ---------- what the serialiser computes ----------

  /** The text, or the first failure in visiting order. The measure is the objects that are no ancestors yet. */
  function Serialize(h: Heap, v: Value, ancestors: set<Id>): Result<JsString, Failure>
    decreases h.Keys - ancestors, 0
  {
    match v
    case Null => Ok(NULL)
    case Bool(b) => Ok(if b then TRUE else FALSE)
    case Str(s) => Ok(Quote(s))
    case Num(token) => Ok(token)
    case Unsupported => Err(UnsupportedValue)
    case Ref(id) =>
      if id in ancestors then Err(Cycle)
      else
        match NodeAt(h, id)
        case ForeignNode => Err(NotPlainObject)
        case ArrayNode(items) =>
          assert id in h.Keys - ancestors;
          var parts := ItemTexts(h, items, ancestors + {id});
          if parts.Err? then Err(parts.error) else Ok([OPEN_ARRAY] + Join(parts.value) + [CLOSE_ARRAY])
        case ObjectNode(members) =>
          assert id in h.Keys - ancestors;
          var parts := MemberTexts(h, Sort(ByCodePoint, members), ancestors + {id});
          if parts.Err? then Err(parts.error) else Ok([OPEN_OBJECT] + Join(parts.value) + [CLOSE_OBJECT])
  }

  function ItemTexts(h: Heap, items: seq<Value>, ancestors: set<Id>): Result<seq<JsString>, Failure>
    decreases h.Keys - ancestors, |items|
  {
    if items == [] then Ok([])
    else
      var first := Serialize(h, items[0], ancestors);
      if first.Err? then Err(first.error)
      else Prefixed([first.value], ItemTexts(h, items[1..], ancestors))
  }

  function MemberTexts(h: Heap, members: seq<Member<Value>>, ancestors: set<Id>): Result<seq<JsString>, Failure>
    decreases h.Keys - ancestors, |members|
  {
    if members == [] then Ok([])
    else
      var first := Serialize(h, members[0].value, ancestors);
      if first.Err? then Err(first.error)
      else Prefixed([Quote(members[0].key) + [COLON] + first.value], MemberTexts(h, members[1..], ancestors))
  }

  function Prefixed(parts: seq<JsString>, r: Result<seq<JsString>, Failure>): Result<seq<JsString>, Failure> {
    if r.Err? then r else Ok(parts + r.value)
  }

  lemma PrefixedAppend(parts: seq<JsString>, part: JsString, r: Result<seq<JsString>, Failure>)
    ensures Prefixed(parts, Prefixed([part], r)) == Prefixed(parts + [part], r)
    ensures Prefixed([], r) == r
    ensures Prefixed(parts, Ok([])) == Ok(parts)
  {
    if r.Ok? {
      assert parts + ([part] + r.value) == parts + [part] + r.value;
      assert [] + r.value == r.value;
    }
    assert parts + [] == parts;
  }

  // ---------- the code: one mutable set, shared down the recursion ----------

  class Ancestors {
    var members: set<Id>

    constructor ()
      ensures members == {}
    {
      members := {};
    }
  }

  /** On return and on throw alike the set is left as it was found. */
  method SerializeInto(h: Heap, v: Value, ancestors: Ancestors) returns (r: Result<JsString, Failure>)
    modifies ancestors
    ensures ancestors.members == old(ancestors.members)
    ensures r == Serialize(h, v, old(ancestors.members))
    decreases h.Keys - ancestors.members, 0
  {
    match v
    case Null => return Ok(NULL);
    case Bool(b) => return Ok(if b then TRUE else FALSE);
    case Str(s) => return Ok(Quote(s));
    case Num(token) => return Ok(token);
    case Unsupported => return Err(UnsupportedValue);
    case Ref(id) =>
      if id in ancestors.members {
        return Err(Cycle);
      }
      ancestors.members := ancestors.members + {id};
      match NodeAt(h, id) {
        case ForeignNode =>
          r := Err(NotPlainObject);
        case ArrayNode(items) =>
          assert id in h.Keys - old(ancestors.members);
          var parts := SerializeItems(h, items, ancestors);
          r := if parts.Err? then Err(parts.error) else Ok([OPEN_ARRAY] + Join(parts.value) + [CLOSE_ARRAY]);
        case ObjectNode(members) =>
          assert id in h.Keys - old(ancestors.members);
          var parts := SerializeMembers(h, Sort(ByCodePoint, members), ancestors);
          r := if parts.Err? then Err(parts.error) else Ok([OPEN_OBJECT] + Join(parts.value) + [CLOSE_OBJECT]);
      }
      ancestors.members := ancestors.members - {id};
  }

  method SerializeItems(h: Heap, items: seq<Value>, ancestors: Ancestors) returns (r: Result<seq<JsString>, Failure>)
    modifies ancestors
    ensures ancestors.members == old(ancestors.members)
    ensures r == ItemTexts(h, items, old(ancestors.members))
    decreases h.Keys - ancestors.members, 1
  {
    var parts: seq<JsString> := [];
    var k := 0;
    assert items[0..] == items;
    PrefixedAppend([], [], ItemTexts(h, items, ancestors.members));
    while k < |items|
      invariant 0 <= k <= |items| && ancestors.members == old(ancestors.members)
      invariant ItemTexts(h, items, ancestors.members) == Prefixed(parts, ItemTexts(h, items[k..], ancestors.members))
    {
      var text := SerializeInto(h, items[k], ancestors);
      assert items[k..][1..] == items[k + 1..];
      if text.Err? {
        return Err(text.error);
      }
      PrefixedAppend(parts, text.value, ItemTexts(h, items[k + 1..], ancestors.members));
      parts := parts + [text.value];
      k := k + 1;
    }
    PrefixedAppend(parts, [], Ok([]));
    return Ok(parts);
  }

  method SerializeMembers(h: Heap, members: seq<Member<Value>>, ancestors: Ancestors)
    returns (r: Result<seq<JsString>, Failure>)
    modifies ancestors
    ensures ancestors.members == old(ancestors.members)
    ensures r == MemberTexts(h, members, old(ancestors.members))
    decreases h.Keys - ancestors.members, 1
  {
    var parts: seq<JsString> := [];
    var k := 0;
    assert members[0..] == members;
    PrefixedAppend([], [], MemberTexts(h, members, ancestors.members));
    while k < |members|
      invariant 0 <= k <= |members| && ancestors.members == old(ancestors.members)
      invariant MemberTexts(h, members, ancestors.members)
                == Prefixed(parts, MemberTexts(h, members[k..], ancestors.members))
    {
      var text := SerializeInto(h, members[k].value, ancestors);
      assert members[k..][1..] == members[k + 1..];
      if text.Err? {
        return Err(text.error);
      }
      PrefixedAppend(
        parts, Quote(members[k].key) + [COLON] + text.value, MemberTexts(h, members[k + 1..], ancestors.members));
      parts := parts + [Quote(members[k].key) + [COLON] + text.value];
      k := k + 1;
    }
    PrefixedAppend(parts, [], Ok([]));
    return Ok(parts);
  }

  method SerializeSemanticSubject(h: Heap, v: Value) returns (r: Result<JsString, Failure>)
    ensures r == Serialize(h, v, {})
  {
    var ancestors := new Ancestors();
    r := SerializeInto(h, v, ancestors);
  }

  // ---------- single values ----------

  /** The text of a string is the shortest that reads as it. */
  lemma {:induction false} StringText(h: Heap, s: JsString, ancestors: set<Id>, text: JsString)
    ensures Serialize(h, Str(s), ancestors) == Ok(text) <==> ShortestText.IsShortest(text, s)
  {
    ShortestText.QuoteExactly(s, text);
  }

  /** A string without quotes, backslashes, control characters and lone surrogates is only put in quotes. */
  lemma {:induction false} PlainStringText(h: Heap, s: JsString, ancestors: set<Id>)
    requires Utf8.IsWellFormed(s) && forall i | 0 <= i < |s| :: s[i] >= 0x20 && s[i] != 0x22 && s[i] != 0x5C
    ensures Serialize(h, Str(s), ancestors) == Ok([0x22] + s + [0x22])
  {
    ShortestText.PlainStaysPlain(s);
  }

  /** The texts of the other values without parts. */
  lemma {:induction false} AtomTexts(h: Heap, token: JsString, ancestors: set<Id>)
    ensures Serialize(h, Null, ancestors) == Ok(ShortestText.Chars("null"))
    ensures Serialize(h, Bool(true), ancestors) == Ok(ShortestText.Chars("true"))
    ensures Serialize(h, Bool(false), ancestors) == Ok(ShortestText.Chars("false"))
    ensures Serialize(h, Num(token), ancestors) == Ok(token)
    ensures Serialize(h, Unsupported, ancestors) == Err(UnsupportedValue)
  {
    ShortestText.LiteralTexts(token);
  }

  // ---------- unfolding a graph into a tree ----------

  /** j is the tree that v stands for; shared objects appear once per occurrence. */
  ghost predicate Unfolds(h: Heap, v: Value, j: Json)
    decreases j
  {
    match v
    case Null => j.JNull?
    case Bool(b) => j == JBool(b)
    case Str(s) => j == JString(s)
    case Num(token) => j == JNumber(token)
    case Unsupported => false
    case Ref(id) =>
      match NodeAt(h, id)
      case ForeignNode => false
      case ArrayNode(items) =>
        j.JArray? && |j.items| == |items| && forall i | 0 <= i < |items| :: Unfolds(h, items[i], j.items[i])
      case ObjectNode(members) =>
        && j.JObject? && |j.members| == |members|
        && (forall i | 0 <= i < |members| :: j.members[i].key == members[i].key)
        && (forall i | 0 <= i < |members| :: Unfolds(h, members[i].value, j.members[i].value))
  }

  lemma {:induction false} UnfoldingUnique(h: Heap, v: Value, j: Json, k: Json)
    requires Unfolds(h, v, j) && Unfolds(h, v, k)
    ensures j == k
    decreases j
  {
    if v.Ref? {
      match NodeAt(h, v.id)
      case ArrayNode(items) =>
        forall i | 0 <= i < |items| ensures j.items[i] == k.items[i] {
          UnfoldingUnique(h, items[i], j.items[i], k.items[i]);
        }
        assert j.items == k.items;
      case ObjectNode(members) =>
        forall i | 0 <= i < |members| ensures j.members[i] == k.members[i] {
          UnfoldingUnique(h, members[i].value, j.members[i].value, k.members[i].value);
        }
        assert j.members == k.members;
    }
  }

  lemma {:induction false} ItemTextsOk(h: Heap, items: seq<Value>, ancestors: set<Id>)
    ensures ItemTexts(h, items, ancestors).Ok? <==> forall i | 0 <= i < |items| :: Serialize(h, items[i], ancestors).Ok?
    ensures ItemTexts(h, items, ancestors).Ok? ==>
      && |ItemTexts(h, items, ancestors).value| == |items|
      && forall i | 0 <= i < |items| ::
        ItemTexts(h, items, ancestors).value[i] == Serialize(h, items[i], ancestors).value
  {
    if items != [] {
      ItemTextsOk(h, items[1..], ancestors);
      assert forall i | 1 <= i < |items| :: items[i] == items[1..][i - 1];
    }
  }

  lemma {:induction false} MemberTextsOk(h: Heap, ms: seq<Member<Value>>, ancestors: set<Id>)
    ensures MemberTexts(h, ms, ancestors).Ok? <==> forall i | 0 <= i < |ms| :: Serialize(h, ms[i].value, ancestors).Ok?
    ensures MemberTexts(h, ms, ancestors).Ok? ==>
      && |MemberTexts(h, ms, ancestors).value| == |ms|
      && forall i | 0 <= i < |ms| ::
           MemberTexts(h, ms, ancestors).value[i]
           == Quote(ms[i].key) + [COLON] + Serialize(h, ms[i].value, ancestors).value
  {
    if ms != [] {
      MemberTextsOk(h, ms[1..], ancestors);
      assert forall i | 1 <= i < |ms| :: ms[i] == ms[1..][i - 1];
    }
  }

  /** Sorting the members changes nothing about which of them serialise. */
  lemma {:induction false} SortedMembersOk(h: Heap, ms: seq<Member<Value>>, ancestors: set<Id>)
    requires DistinctKeys(ms)
    ensures MemberTexts(h, Sort(ByCodePoint, ms), ancestors).Ok?
            <==> forall i | 0 <= i < |ms| :: Serialize(h, ms[i].value, ancestors).Ok?
  {
    var sorted := Sort(ByCodePoint, ms);
    SortSorts(ByCodePoint, ms);
    MemberTextsOk(h, sorted, ancestors);
    assert forall i | 0 <= i < |ms| :: ms[i] in sorted;
    assert forall i | 0 <= i < |sorted| :: sorted[i] in ms;
  }

  /** The tree a successful serialisation has visited. */
  ghost function Tree(h: Heap, v: Value, ancestors: set<Id>): Json
    requires WellKeyedHeap(h) && Serialize(h, v, ancestors).Ok?
    decreases h.Keys - ancestors
  {
    match v
    case Null => JNull
    case Bool(b) => JBool(b)
    case Str(s) => JString(s)
    case Num(token) => JNumber(token)
    case Ref(id) =>
      assert id in h.Keys - ancestors;
      match NodeAt(h, id)
      case ArrayNode(items) =>
        ItemTextsOk(h, items, ancestors + {id});
        JArray(seq(|items|, i requires 0 <= i < |items| => Tree(h, items[i], ancestors + {id})))
      case ObjectNode(members) =>
        SortedMembersOk(h, members, ancestors + {id});
        JObject(seq(|members|, i requires 0 <= i < |members| =>
          Member(members[i].key, Tree(h, members[i].value, ancestors + {id}))))
  }

  // ---------- texts of trees ----------

  lemma {:induction false} JoinItems(items: seq<Json>, parts: seq<JsString>)
    requires |parts| == |items| && forall i | 0 <= i < |items| :: parts[i] == Print(items[i])
    ensures Join(parts) == PrintItems(items)
  {
    if items != [] {
      JoinItems(items[1..], parts[1..]);
    }
  }

  lemma {:induction false} JoinMembers(members: seq<Member<Json>>, parts: seq<JsString>)
    requires |parts| == |members|
    requires forall i | 0 <= i < |members| ::
      parts[i] == Quote(members[i].key) + [COLON] + Print(members[i].value)
    ensures Join(parts) == PrintMembers(members)
  {
    if members != [] {
      JoinMembers(members[1..], parts[1..]);
    }
  }

  /** Sorting by key commutes with replacing the values. */
  lemma {:induction false} SortCommutes(ms: seq<Member<Value>>, nm: seq<Member<Json>>)
    requires DistinctKeys(ms) && |nm| == |ms| && forall i | 0 <= i < |ms| :: nm[i].key == ms[i].key
    ensures |Sort(ByCodePoint, nm)| == |Sort(ByCodePoint, ms)|
    ensures forall k | 0 <= k < |Sort(ByCodePoint, ms)| ::
              var i := IndexOf(ms, Sort(ByCodePoint, ms)[k]);
              0 <= i < |ms| && ms[i] == Sort(ByCodePoint, ms)[k] && Sort(ByCodePoint, nm)[k] == nm[i]
  {
    hide Sort, Less;
    var sorted := Sort(ByCodePoint, ms);
    SortSorts(ByCodePoint, ms);
    SortSorts(ByCodePoint, nm);
    assert forall k | 0 <= k < |sorted| :: sorted[k] in ms;
    var target := seq(|sorted|, k requires 0 <= k < |sorted| => nm[IndexOf(ms, sorted[k])]);
    forall m ensures m in target <==> m in nm {
      if m in nm {
        var i :| 0 <= i < |nm| && nm[i] == m;
        assert ms[i] in sorted;
        var k :| 0 <= k < |sorted| && sorted[k] == ms[i];
        assert IndexOf(ms, sorted[k]) == i;
        assert target[k] == m;
      }
    }
    assert SortedBy(ByCodePoint, target);
    SortedUnique(ByCodePoint, target, Sort(ByCodePoint, nm));
  }

  /** Printing in sorted order is printing the normalised object. */
  lemma {:induction false} SortedPartsPrintNormalForm(
    ms: seq<Member<Value>>, js: seq<Member<Json>>, parts: seq<JsString>)
    requires DistinctKeys(ms) && |js| == |ms| && forall i | 0 <= i < |ms| :: js[i].key == ms[i].key
    requires var sorted := Sort(ByCodePoint, ms);
      && |parts| == |sorted|
      && forall k, i | 0 <= k < |sorted| && 0 <= i < |ms| :: sorted[k] == ms[i] ==>
           parts[k] == Quote(ms[i].key) + [COLON] + CanonicalText(Form.SemanticSubject, js[i].value)
    ensures Join(parts) == PrintMembers(Sort(ByCodePoint, NormalizeMembers(Form.SemanticSubject, js)))
  {
    hide Sort, Less, Normalize, NormalizeMembers, Print, Quote, DistinctKeys;
    var sorted := Sort(ByCodePoint, ms);
    var nm := NormalizeMembers(Form.SemanticSubject, js);
    forall i | 0 <= i < |js| ensures nm[i] == Member(js[i].key, Normalize(Form.SemanticSubject, js[i].value)) {
      NormalizedMember(Form.SemanticSubject, js, i);
    }
    SortCommutes(ms, nm);
    var target := Sort(ByCodePoint, nm);
    forall k | 0 <= k < |target| ensures parts[k] == Quote(target[k].key) + [COLON] + Print(target[k].value) {
      var i := IndexOf(ms, sorted[k]);
      assert sorted[k] == ms[i] && target[k] == nm[i];
    }
    JoinMembers(target, parts);
  }

  ghost function IndexOf(ms: seq<Member<Value>>, m: Member<Value>): (i: int)
    ensures m in ms ==> 0 <= i < |ms| && ms[i] == m
  {
    if m in ms then var i :| 0 <= i < |ms| && ms[i] == m; i else -1
  }

  /** A successful serialisation has unfolded the graph and printed the canonical text of that tree. */
  lemma {:induction false} TreeUnfolds(h: Heap, v: Value, ancestors: set<Id>)
    requires WellKeyedHeap(h) && Serialize(h, v, ancestors).Ok?
    ensures Unfolds(h, v, Tree(h, v, ancestors))
    ensures Serialize(h, v, ancestors).value == CanonicalText(Form.SemanticSubject, Tree(h, v, ancestors))
    decreases h.Keys - ancestors
  {
    hide Sort, Less, Quote, Join, NormalizeItems, NormalizeMembers, PrintItems, PrintMembers, DistinctKeys;
    if v.Ref? {
      var inner := ancestors + {v.id};
      assert v.id in h.Keys - ancestors;
      match NodeAt(h, v.id)
      case ArrayNode(items) =>
        ItemTextsOk(h, items, inner);
        forall i | 0 <= i < |items|
          ensures Unfolds(h, items[i], Tree(h, items[i], inner))
          ensures Serialize(h, items[i], inner).value == CanonicalText(Form.SemanticSubject, Tree(h, items[i], inner))
        {
          TreeUnfolds(h, items[i], inner);
        }
        var js := Tree(h, v, ancestors).items;
        forall i | 0 <= i < |items|
          ensures ItemTexts(h, items, inner).value[i] == Print(NormalizeItems(Form.SemanticSubject, js)[i])
        {
          NormalizedItem(Form.SemanticSubject, js, i);
        }
        JoinItems(NormalizeItems(Form.SemanticSubject, js), ItemTexts(h, items, inner).value);
      case ObjectNode(members) =>
        SortedMembersOk(h, members, inner);
        MemberTextsOk(h, Sort(ByCodePoint, members), inner);
        forall i | 0 <= i < |members|
          ensures Unfolds(h, members[i].value, Tree(h, members[i].value, inner))
          ensures Serialize(h, members[i].value, inner).value
                  == CanonicalText(Form.SemanticSubject, Tree(h, members[i].value, inner))
        {
          TreeUnfolds(h, members[i].value, inner);
        }
        SortedPartsPrintNormalForm(
          members, Tree(h, v, ancestors).members, MemberTexts(h, Sort(ByCodePoint, members), inner).value);
    }
  }

  // ---------- what unfolds also serialises ----------

  ghost function Size(j: Json): nat
    decreases j
  {
    match j
    case JArray(items) => 1 + SizeOfItems(items)
    case JObject(members) => 1 + SizeOfMembers(members)
    case _ => 0
  }

  ghost function SizeOfItems(items: seq<Json>): nat
    decreases items
  {
    if items == [] then 0 else Size(items[0]) + SizeOfItems(items[1..])
  }

  ghost function SizeOfMembers(members: seq<Member<Json>>): nat
    decreases members
  {
    if members == [] then 0 else Size(members[0].value) + SizeOfMembers(members[1..])
  }

  lemma {:induction false} ItemSmaller(items: seq<Json>, i: nat)
    requires i < |items|
    ensures Size(items[i]) <= SizeOfItems(items)
  {
    if i > 0 {
      ItemSmaller(items[1..], i - 1);
    }
  }

  lemma {:induction false} MemberSmaller(members: seq<Member<Json>>, i: nat)
    requires i < |members|
    ensures Size(members[i].value) <= SizeOfMembers(members)
  {
    if i > 0 {
      MemberSmaller(members[1..], i - 1);
    }
  }

  /** Every ancestor unfolds to a tree larger than j; so none of them can unfold to j itself. */
  ghost predicate AboveTree(h: Heap, ancestors: set<Id>, j: Json) {
    forall a | a in ancestors :: exists k :: Unfolds(h, Ref(a), k) && Size(k) > Size(j)
  }

  lemma {:induction false} StaysAbove(h: Heap, ancestors: set<Id>, id: Id, j: Json, child: Json)
    requires AboveTree(h, ancestors, j) && Unfolds(h, Ref(id), j) && Size(child) < Size(j)
    ensures AboveTree(h, ancestors + {id}, child)
  {
    forall a | a in ancestors + {id} ensures exists k :: Unfolds(h, Ref(a), k) && Size(k) > Size(child) {
      if a in ancestors {
        var k :| Unfolds(h, Ref(a), k) && Size(k) > Size(j);
        assert Unfolds(h, Ref(a), k) && Size(k) > Size(child);
      } else {
        assert Unfolds(h, Ref(a), j) && Size(j) > Size(child);
      }
    }
  }

  lemma {:induction false} UnfoldingSerializes(h: Heap, v: Value, j: Json, ancestors: set<Id>)
    requires WellKeyedHeap(h) && Unfolds(h, v, j) && AboveTree(h, ancestors, j)
    ensures Serialize(h, v, ancestors).Ok?
    decreases j
  {
    if v.Ref? {
      if v.id in ancestors {
        var k :| Unfolds(h, Ref(v.id), k) && Size(k) > Size(j);
        UnfoldingUnique(h, v, j, k);
        assert false;
      }
      var inner := ancestors + {v.id};
      match NodeAt(h, v.id)
      case ArrayNode(items) =>
        forall i | 0 <= i < |items| ensures Serialize(h, items[i], inner).Ok? {
          ItemSmaller(j.items, i);
          StaysAbove(h, ancestors, v.id, j, j.items[i]);
          UnfoldingSerializes(h, items[i], j.items[i], inner);
        }
        ItemTextsOk(h, items, inner);
      case ObjectNode(members) =>
        forall i | 0 <= i < |members| ensures Serialize(h, members[i].value, inner).Ok? {
          MemberSmaller(j.members, i);
          StaysAbove(h, ancestors, v.id, j, j.members[i].value);
          UnfoldingSerializes(h, members[i].value, j.members[i].value, inner);
        }
        SortedMembersOk(h, members, inner);
    }
  }

  /**
    The serialiser accepts a graph exactly when it unfolds to a finite tree, and
    then prints that tree's canonical text; shared objects make no difference.
   */
  lemma {:induction false} SerializeVerdict(h: Heap, v: Value, text: JsString)
    requires WellKeyedHeap(h)
    ensures Serialize(h, v, {}) == Ok(text)
            <==> exists j :: Unfolds(h, v, j) && text == CanonicalText(Form.SemanticSubject, j)
  {
    if Serialize(h, v, {}).Ok? {
      TreeUnfolds(h, v, {});
    }
    if exists j :: Unfolds(h, v, j) && text == CanonicalText(Form.SemanticSubject, j) {
      var j :| Unfolds(h, v, j) && text == CanonicalText(Form.SemanticSubject, j);
      UnfoldingSerializes(h, v, j, {});
      TreeUnfolds(h, v, {});
      UnfoldingUnique(h, v, j, Tree(h, v, {}));
    }
  }

  // ---------- cycles ----------

  function Children(n: Node): seq<Value> {
    match n
    case ForeignNode => []
    case ArrayNode(items) => items
    case ObjectNode(members) => seq(|members|, i requires 0 <= i < |members| => members[i].value)
  }

  /** An object every one of whose own values the serialiser can print or follow. */
  predicate Printable(h: Heap, id: Id) {
    !NodeAt(h, id).ForeignNode? && forall c | c in Children(NodeAt(h, id)) :: !c.Unsupported?
  }

  /** A walk from v along references, one object after another. */
  predicate Walk(h: Heap, v: Value, path: seq<Id>) {
    && path != [] && v == Ref(path[0])
    && forall i | 0 <= i < |path| - 1 :: Ref(path[i + 1]) in Children(NodeAt(h, path[i]))
  }

  predicate Simple(path: seq<Id>) {
    forall i, j | 0 <= i < j < |path| :: path[i] != path[j]
  }

  /** The object where the walk ends is printable and the walk met no object twice. */
  predicate Harmless(h: Heap, path: seq<Id>) {
    path != [] && Printable(h, path[|path| - 1]) && Simple(path)
  }

  lemma {:induction false} ChildUnfolds(h: Heap, id: Id, j: Json, c: Value) returns (k: Json)
    requires Unfolds(h, Ref(id), j) && c in Children(NodeAt(h, id))
    ensures Unfolds(h, c, k) && Size(k) < Size(j)
  {
    match NodeAt(h, id)
    case ArrayNode(items) =>
      var i :| 0 <= i < |items| && items[i] == c;
      ItemSmaller(j.items, i);
      k := j.items[i];
    case ObjectNode(members) =>
      var i :| 0 <= i < |Children(NodeAt(h, id))| && Children(NodeAt(h, id))[i] == c;
      MemberSmaller(j.members, i);
      k := j.members[i].value;
  }

  /** Along a walk from a value that unfolds, the trees only get smaller. */
  lemma {:induction false} WalkUnfolds(h: Heap, v: Value, j: Json, path: seq<Id>) returns (trees: seq<Json>)
    requires Unfolds(h, v, j) && Walk(h, v, path)
    ensures |trees| == |path| && trees[0] == j
    ensures forall i | 0 <= i < |path| :: Unfolds(h, Ref(path[i]), trees[i])
    ensures forall i, k | 0 <= i < k < |path| :: Size(trees[k]) < Size(trees[i])
    decreases |path|
  {
    hide Unfolds, Size, NodeAt, Children;
    if |path| == 1 {
      trees := [j];
    } else {
      assert Ref(path[0 + 1]) in Children(NodeAt(h, path[0]));
      var child := ChildUnfolds(h, path[0], j, Ref(path[1]));
      WalkTail(h, v, path);
      var others := WalkUnfolds(h, Ref(path[1]), child, path[1..]);
      trees := [j] + others;
      assert forall i | 0 < i < |path| :: path[i] == path[1..][i - 1] && trees[i] == others[i - 1];
      assert forall k | 0 < k < |path| :: Size(trees[k]) <= Size(child);
    }
  }

  lemma {:induction false} WalkTail(h: Heap, v: Value, path: seq<Id>)
    requires Walk(h, v, path) && |path| > 1
    ensures Walk(h, Ref(path[1]), path[1..])
  {
    var rest := path[1..];
    forall i | 0 <= i < |rest| - 1 ensures Ref(rest[i + 1]) in Children(NodeAt(h, rest[i])) {
      assert rest[i] == path[i + 1] && rest[i + 1] == path[i + 1 + 1];
    }
  }

  lemma {:induction false} UnfoldingIsHarmless(h: Heap, v: Value, j: Json, path: seq<Id>)
    requires Unfolds(h, v, j) && Walk(h, v, path)
    ensures Harmless(h, path)
  {
    var trees := WalkUnfolds(h, v, j, path);
    forall i, k | 0 <= i < k < |path| ensures path[i] != path[k] {
      if path[i] == path[k] {
        UnfoldingUnique(h, Ref(path[i]), trees[i], trees[k]);
      }
    }
    var last := |path| - 1;
    forall c | c in Children(NodeAt(h, path[last])) ensures !c.Unsupported? {
      var k := ChildUnfolds(h, path[last], trees[last], c);
    }
  }

  ghost function Visited(path: seq<Id>): set<Id> {
    set a | a in path
  }

  /** What the error says of the object where the walk ends. */
  ghost predicate Explains(h: Heap, path: seq<Id>, error: Failure) {
    path != [] &&
    var last := |path| - 1;
    match error
    case Cycle => exists i :: 0 <= i < last && path[i] == path[last]
    case NotPlainObject => NodeAt(h, path[last]).ForeignNode?
    case UnsupportedValue => exists c | c in Children(NodeAt(h, path[last])) :: c == Unsupported
  }

  lemma {:induction false} ItemTextsFail(h: Heap, items: seq<Value>, ancestors: set<Id>) returns (i: nat)
    requires ItemTexts(h, items, ancestors).Err?
    ensures i < |items| && Serialize(h, items[i], ancestors).Err?
    ensures Serialize(h, items[i], ancestors).error == ItemTexts(h, items, ancestors).error
  {
    if Serialize(h, items[0], ancestors).Err? {
      i := 0;
    } else {
      i := ItemTextsFail(h, items[1..], ancestors);
      i := i + 1;
    }
  }

  lemma {:induction false} MemberTextsFail(h: Heap, ms: seq<Member<Value>>, ancestors: set<Id>) returns (i: nat)
    requires MemberTexts(h, ms, ancestors).Err?
    ensures i < |ms| && Serialize(h, ms[i].value, ancestors).Err?
    ensures Serialize(h, ms[i].value, ancestors).error == MemberTexts(h, ms, ancestors).error
  {
    if Serialize(h, ms[0].value, ancestors).Err? {
      i := 0;
    } else {
      i := MemberTextsFail(h, ms[1..], ancestors);
      i := i + 1;
    }
  }

  /** A failure below a walk is a walk that ends badly. The ancestors are exactly the objects of the walk so far. */
  lemma {:induction false} FailureHasWalk(h: Heap, root: Value, path: seq<Id>, v: Value) returns (bad: seq<Id>)
    requires WellKeyedHeap(h)
    requires if path == [] then v == root else Walk(h, root, path) && v in Children(NodeAt(h, path[|path| - 1]))
    requires Serialize(h, v, Visited(path)).Err? && (path == [] ==> !v.Unsupported?)
    ensures Walk(h, root, bad) && Explains(h, bad, Serialize(h, v, Visited(path)).error)
    decreases h.Keys - Visited(path)
  {
    var ancestors := Visited(path);
    if v.Unsupported? {
      return path;
    }
    bad := path + [v.id];
    assert Walk(h, root, bad);
    if v.id in ancestors {
      var i :| 0 <= i < |path| && path[i] == v.id;
      assert bad[i] == bad[|path|];
      return;
    }
    var inner := Visited(bad);
    assert inner == ancestors + {v.id};
    assert bad[|bad| - 1] == v.id;
    match NodeAt(h, v.id)
    case ForeignNode =>
    case ArrayNode(items) =>
      var i := ItemTextsFail(h, items, inner);
      bad := FailureHasWalk(h, root, bad, items[i]);
    case ObjectNode(members) =>
      var sorted := Sort(ByCodePoint, members);
      var k := MemberTextsFail(h, sorted, inner);
      SortSorts(ByCodePoint, members);
      assert sorted[k] in members;
      var i :| 0 <= i < |members| && members[i] == sorted[k];
      assert members[i].value == Children(NodeAt(h, v.id))[i];
      bad := FailureHasWalk(h, root, bad, members[i].value);
  }

  lemma {:induction false} ExplainedIsHarmful(h: Heap, path: seq<Id>, error: Failure)
    requires Explains(h, path, error)
    ensures !Harmless(h, path)
  {
  }

  /** The error names what is wrong at the end of some walk from the value. */
  lemma {:induction false} FailureExplained(h: Heap, v: Value) returns (path: seq<Id>)
    requires WellKeyedHeap(h) && Serialize(h, v, {}).Err?
    ensures v == Unsupported ==> Serialize(h, v, {}).error == UnsupportedValue
    ensures v != Unsupported ==> Walk(h, v, path) && Explains(h, path, Serialize(h, v, {}).error)
  {
    assert Visited([]) == {};
    path := [];
    if v != Unsupported {
      path := FailureHasWalk(h, v, [], v);
    }
  }

  /** Acceptance in terms of the graph alone: every walk from the value is harmless. */
  lemma {:induction false} AcceptedExactlyWhenHarmless(h: Heap, v: Value)
    requires WellKeyedHeap(h) && !v.Unsupported?
    ensures Serialize(h, v, {}).Ok? <==> forall path | Walk(h, v, path) :: Harmless(h, path)
  {
    if Serialize(h, v, {}).Ok? {
      TreeUnfolds(h, v, {});
      forall path | Walk(h, v, path) ensures Harmless(h, path) {
        UnfoldingIsHarmless(h, v, Tree(h, v, {}), path);
      }
    } else {
      var bad := FailureExplained(h, v);
      ExplainedIsHarmful(h, bad, Serialize(h, v, {}).error);
    }
  }

  /** A graph of plain JSON objects and arrays is rejected exactly when some object can be met twice on one walk. */
  lemma {:induction false} PlainGraphRejectedExactlyOnCycle(h: Heap, v: Value)
    requires WellKeyedHeap(h) && !v.Unsupported?
    requires forall path | Walk(h, v, path) :: Printable(h, path[|path| - 1])
    ensures Serialize(h, v, {}).Err? <==> exists path :: Walk(h, v, path) && !Simple(path)
  {
    AcceptedExactlyWhenHarmless(h, v);
  }

  /** Two accepted graphs get the same text exactly when their unfoldings differ at most in member order. */
  lemma {:induction false} SubjectTextFaithful(h: Heap, v: Value, j: Json, h': Heap, v': Value, j': Json)
    requires WellKeyedHeap(h) && WellKeyedHeap(h') && Unfolds(h, v, j) && Unfolds(h', v', j')
    requires NumbersValid(j) && NumbersValid(j')
    ensures Serialize(h, v, {}) == Serialize(h', v', {}) <==> Equivalent(j, j')
  {
    SerializeVerdict(h, v, CanonicalText(Form.SemanticSubject, j));
    SerializeVerdict(h', v', CanonicalText(Form.SemanticSubject, j'));
    UnfoldingWellKeyed(h, v, j);
    UnfoldingWellKeyed(h', v', j');
    CanonicalTextFaithful(Form.SemanticSubject, j, j');
  }

  /** So do the bytes that the subject's digest covers: encoding them loses nothing. */
  lemma {:induction false} SubjectBytesFaithful(h: Heap, v: Value, j: Json, h': Heap, v': Value, j': Json)
    requires WellKeyedHeap(h) && WellKeyedHeap(h') && Unfolds(h, v, j) && Unfolds(h', v', j')
    requires NumbersValid(j) && NumbersValid(j')
    ensures var s, s' := Serialize(h, v, {}), Serialize(h', v', {});
            s.Ok? && s'.Ok? && (Utf8.Bytes(s.value) == Utf8.Bytes(s'.value) <==> Equivalent(j, j'))
  {
    hide WellKeyedHeap, Unfolds, NumbersValid, Equivalent, CanonicalText;
    SerializeVerdict(h, v, CanonicalText(Form.SemanticSubject, j));
    SerializeVerdict(h', v', CanonicalText(Form.SemanticSubject, j'));
    UnfoldingWellKeyed(h, v, j);
    UnfoldingWellKeyed(h', v', j');
    CanonicalBytes.CanonicalBytesFaithful(Form.SemanticSubject, j, j');
  }

  lemma {:induction false} UnfoldingWellKeyed(h: Heap, v: Value, j: Json)
    requires WellKeyedHeap(h) && Unfolds(h, v, j)
    ensures WellKeyed(j)
    decreases j
  {
    if v.Ref? {
      match NodeAt(h, v.id)
      case ArrayNode(items) =>
        forall i | 0 <= i < |items| ensures WellKeyed(j.items[i]) {
          UnfoldingWellKeyed(h, items[i], j.items[i]);
        }
      case ObjectNode(members) =>
        forall i | 0 <= i < |members| ensures WellKeyed(j.members[i].value) {
          UnfoldingWellKeyed(h, members[i].value, j.members[i].value);
        }
    }
  }
}
