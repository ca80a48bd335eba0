/**
  The canonical form of a JSON value in both variants the repository uses, and
  why it is faithful: equal texts exactly for values that differ at most in the
  order of object members.
 */
module CanonicalForm {
  import opened Outcomes
  import opened TextOrder
  import opened Members
  import opened JsonText

  /** No object in the tree has two members of the same key. */
  predicate WellKeyed(v: Json) {
    match v
    case JArray(items) => forall i | 0 <= i < |items| :: WellKeyed(items[i])
    case JObject(members) => DistinctKeys(members) && forall i | 0 <= i < |members| :: WellKeyed(members[i].value)
    case _ => true
  }

  /** Equality up to the order of object members, at every depth. */
  ghost predicate Equivalent(a: Json, b: Json) {
    match (a, b)
    case (JArray(xs), JArray(ys)) => |xs| == |ys| && forall i | 0 <= i < |xs| :: Equivalent(xs[i], ys[i])
    case (JObject(ms), JObject(ns)) =>
      && (forall i | 0 <= i < |ms| :: HasKey(ns, ms[i].key))
      && (forall j | 0 <= j < |ns| :: HasKey(ms, ns[j].key))
      && (forall i, j | 0 <= i < |ms| && 0 <= j < |ns| ::
            ms[i].key == ns[j].key ==> Equivalent(ms[i].value, ns[j].value))
    case (JNull, JNull) => true
    case (JBool(x), JBool(y)) => x == y
    case (JString(x), JString(y)) => x == y
    case (JNumber(x), JNumber(y)) => x == y
    case _ => false
  }

  ghost predicate HasKey(ms: seq<Member<Json>>, key: JsString) {
    exists i | 0 <= i < |ms| :: ms[i].key == key
  }

  function Normalize(form: Form, v: Json): Json {
    match v
    case JArray(items) => JArray(NormalizeItems(form, items))
    case JObject(members) => JObject(Arrange(form, NormalizeMembers(form, members)))
    case _ => v
  }

  function NormalizeItems(form: Form, items: seq<Json>): (r: seq<Json>)
    ensures |r| == |items|
  {
    if items == [] then [] else [Normalize(form, items[0])] + NormalizeItems(form, items[1..])
  }

  function NormalizeMembers(form: Form, members: seq<Member<Json>>): (r: seq<Member<Json>>)
    ensures |r| == |members|
  {
    if members == [] then []
    else [Member(members[0].key, Normalize(form, members[0].value))] + NormalizeMembers(form, members[1..])
  }

  /** The canonical text: what the semantic-subject serialiser and canonicalManifestBytes produce. */
  function CanonicalText(form: Form, v: Json): JsString {
    Print(Normalize(form, v))
  }

  lemma {:induction false} NormalizedItem(form: Form, items: seq<Json>, i: nat)
    requires i < |items|
    ensures NormalizeItems(form, items)[i] == Normalize(form, items[i])
  {
    if i > 0 {
      NormalizedItem(form, items[1..], i - 1);
    }
  }

  lemma {:induction false} NormalizedMember(form: Form, members: seq<Member<Json>>, i: nat)
    requires i < |members|
    ensures NormalizeMembers(form, members)[i] == Member(members[i].key, Normalize(form, members[i].value))
  {
    if i > 0 {
      NormalizedMember(form, members[1..], i - 1);
    }
  }

  lemma {:induction false} NormalizedKeys(form: Form, members: seq<Member<Json>>)
    requires DistinctKeys(members)
    ensures DistinctKeys(NormalizeMembers(form, members))
  {
    forall i, j | 0 <= i < j < |members|
      ensures NormalizeMembers(form, members)[i].key != NormalizeMembers(form, members)[j].key
    {
      NormalizedMember(form, members, i);
      NormalizedMember(form, members, j);
    }
  }

  // ---------- equal normal forms are equivalent values ----------

  /** The induction hypothesis for the members of two objects. */
  ghost predicate Decided(form: Form, a: Json, b: Json) {
    Normalize(form, a) == Normalize(form, b) <==> Equivalent(a, b)
  }

  lemma {:induction false} ArraysDecided(form: Form, xs: seq<Json>, ys: seq<Json>)
    requires |xs| == |ys| ==> forall i | 0 <= i < |xs| :: Decided(form, xs[i], ys[i])
    ensures Decided(form, JArray(xs), JArray(ys))
  {
    var nx, ny := NormalizeItems(form, xs), NormalizeItems(form, ys);
    if |xs| == |ys| {
      forall i | 0 <= i < |xs|
        ensures nx[i] == Normalize(form, xs[i]) && ny[i] == Normalize(form, ys[i]) && Decided(form, xs[i], ys[i])
      {
        NormalizedItem(form, xs, i);
        NormalizedItem(form, ys, i);
      }
      if Equivalent(JArray(xs), JArray(ys)) {
        forall i | 0 <= i < |xs| ensures nx[i] == ny[i] {
          assert Equivalent(xs[i], ys[i]);
        }
        assert nx == ny;
      }
    }
  }

  ghost predicate Normalizes(form: Form, ms: seq<Member<Json>>, nm: seq<Member<Json>>) {
    |nm| == |ms| && forall i | 0 <= i < |ms| :: nm[i] == Member(ms[i].key, Normalize(form, ms[i].value))
  }

  ghost predicate KeysIncluded(ms: seq<Member<Json>>, ns: seq<Member<Json>>) {
    forall i | 0 <= i < |ms| :: HasKey(ns, ms[i].key)
  }

  ghost predicate AgreeOnKeys(form: Form, ms: seq<Member<Json>>, ns: seq<Member<Json>>) {
    forall i, j | 0 <= i < |ms| && 0 <= j < |ns| ::
      ms[i].key == ns[j].key ==> Normalize(form, ms[i].value) == Normalize(form, ns[j].value)
  }

  lemma {:induction false} Included(
      form: Form, ms: seq<Member<Json>>, ns: seq<Member<Json>>, nm: seq<Member<Json>>, nn: seq<Member<Json>>)
    requires Normalizes(form, ms, nm) && Normalizes(form, ns, nn)
    requires KeysIncluded(ms, ns) && AgreeOnKeys(form, ms, ns)
    ensures forall m :: m in nm ==> m in nn
  {
    hide Normalize;
    forall m | m in nm ensures m in nn {
      var i :| 0 <= i < |nm| && nm[i] == m;
      assert HasKey(ns, ms[i].key);
      var j :| 0 <= j < |ns| && ns[j].key == ms[i].key;
      assert nn[j] == m;
    }
  }

  lemma {:induction false} IncludedBack(
      form: Form, ms: seq<Member<Json>>, ns: seq<Member<Json>>, nm: seq<Member<Json>>, nn: seq<Member<Json>>)
    requires Normalizes(form, ms, nm) && Normalizes(form, ns, nn) && DistinctKeys(ns)
    requires forall m :: m in nm ==> m in nn
    ensures KeysIncluded(ms, ns) && AgreeOnKeys(form, ms, ns)
  {
    hide Normalize;
    forall i | 0 <= i < |ms|
      ensures exists k | 0 <= k < |ns| ::
                ns[k].key == ms[i].key && Normalize(form, ns[k].value) == Normalize(form, ms[i].value)
    {
      assert nm[i] in nn;
      var k :| 0 <= k < |nn| && nn[k] == nm[i];
      assert ns[k].key == ms[i].key;
    }
    forall i, j | 0 <= i < |ms| && 0 <= j < |ns| && ms[i].key == ns[j].key
      ensures Normalize(form, ms[i].value) == Normalize(form, ns[j].value)
    {
      var k :| 0 <= k < |ns| && ns[k].key == ms[i].key && Normalize(form, ns[k].value) == Normalize(form, ms[i].value);
      assert k == j;
    }
  }

  /** Equal normalised member sets, in terms of keys and values. */
  lemma {:induction false} SameNormalizedMembers(
      form: Form, ms: seq<Member<Json>>, ns: seq<Member<Json>>, nm: seq<Member<Json>>, nn: seq<Member<Json>>)
    requires DistinctKeys(ms) && DistinctKeys(ns)
    requires Normalizes(form, ms, nm) && Normalizes(form, ns, nn)
    ensures SameMembers(nm, nn) <==> KeysIncluded(ms, ns) && KeysIncluded(ns, ms) && AgreeOnKeys(form, ms, ns)
  {
    hide Normalize, HasKey;
    if SameMembers(nm, nn) {
      IncludedBack(form, ms, ns, nm, nn);
      IncludedBack(form, ns, ms, nn, nm);
    }
    if KeysIncluded(ms, ns) && KeysIncluded(ns, ms) && AgreeOnKeys(form, ms, ns) {
      Included(form, ms, ns, nm, nn);
      Included(form, ns, ms, nn, nm);
    }
  }

  lemma {:induction false} ObjectsDecided(form: Form, ms: seq<Member<Json>>, ns: seq<Member<Json>>)
    requires DistinctKeys(ms) && DistinctKeys(ns)
    requires forall i, j | 0 <= i < |ms| && 0 <= j < |ns| :: Decided(form, ms[i].value, ns[j].value)
    ensures Decided(form, JObject(ms), JObject(ns))
  {
    hide Arrange, DistinctKeys, HasKey, SameMembers, AgreeOnKeys;
    var nm, nn := NormalizeMembers(form, ms), NormalizeMembers(form, ns);
    NormalizedKeys(form, ms);
    NormalizedKeys(form, ns);
    ArrangeForgetsOrder(form, nm, nn);
    forall i | 0 <= i < |ms| ensures nm[i] == Member(ms[i].key, Normalize(form, ms[i].value)) {
      NormalizedMember(form, ms, i);
    }
    forall j | 0 <= j < |ns| ensures nn[j] == Member(ns[j].key, Normalize(form, ns[j].value)) {
      NormalizedMember(form, ns, j);
    }
    SameNormalizedMembers(form, ms, ns, nm, nn);
    AgreementDecided(form, ms, ns);
  }

  lemma {:induction false} AgreementDecided(form: Form, ms: seq<Member<Json>>, ns: seq<Member<Json>>)
    requires forall i, j | 0 <= i < |ms| && 0 <= j < |ns| :: Decided(form, ms[i].value, ns[j].value)
    ensures AgreeOnKeys(form, ms, ns)
            <==> forall i, j | 0 <= i < |ms| && 0 <= j < |ns| ::
                   ms[i].key == ns[j].key ==> Equivalent(ms[i].value, ns[j].value)
  {
    hide Normalize, Equivalent;
    forall i, j | 0 <= i < |ms| && 0 <= j < |ns|
      ensures Normalize(form, ms[i].value) == Normalize(form, ns[j].value) <==> Equivalent(ms[i].value, ns[j].value)
    {
      assert Decided(form, ms[i].value, ns[j].value);
    }
  }

  lemma {:induction false} NormalFormsDecide(form: Form, a: Json, b: Json)
    requires WellKeyed(a) && WellKeyed(b)
    ensures Decided(form, a, b)
  {
    match (a, b)
    case (JArray(xs), JArray(ys)) =>
      if |xs| == |ys| {
        forall i | 0 <= i < |xs| ensures Decided(form, xs[i], ys[i]) {
          NormalFormsDecide(form, xs[i], ys[i]);
        }
      }
      ArraysDecided(form, xs, ys);
    case (JObject(ms), JObject(ns)) =>
      forall i, j | 0 <= i < |ms| && 0 <= j < |ns| ensures Decided(form, ms[i].value, ns[j].value) {
        NormalFormsDecide(form, ms[i].value, ns[j].value);
      }
      ObjectsDecided(form, ms, ns);
    case _ =>
  }

  // ---------- normal forms are values of the same kind ----------

  lemma {:induction false} NormalFormValid(form: Form, v: Json)
    requires WellKeyed(v)
    ensures NumbersValid(v) ==> NumbersValid(Normalize(form, v))
    ensures WellKeyed(Normalize(form, v)) && Equivalent(v, Normalize(form, v))
  {
    match v
    case JArray(items) =>
      forall i | 0 <= i < |items|
        ensures NumbersValid(items[i]) ==> NumbersValid(NormalizeItems(form, items)[i])
        ensures WellKeyed(NormalizeItems(form, items)[i]) && Equivalent(items[i], NormalizeItems(form, items)[i])
      {
        NormalFormValid(form, items[i]);
        NormalizedItem(form, items, i);
      }
    case JObject(members) =>
      forall i | 0 <= i < |members|
        ensures NumbersValid(members[i].value) ==> NumbersValid(Normalize(form, members[i].value))
        ensures WellKeyed(Normalize(form, members[i].value))
        ensures Equivalent(members[i].value, Normalize(form, members[i].value))
      {
        NormalFormValid(form, members[i].value);
      }
      ObjectNormalFormValid(form, members);
    case _ =>
  }

  lemma {:induction false} ObjectNormalFormValid(form: Form, members: seq<Member<Json>>)
    requires DistinctKeys(members)
    requires forall i | 0 <= i < |members| ::
      && (NumbersValid(members[i].value) ==> NumbersValid(Normalize(form, members[i].value)))
      && WellKeyed(Normalize(form, members[i].value))
      && Equivalent(members[i].value, Normalize(form, members[i].value))
    ensures NumbersValid(JObject(members)) ==> NumbersValid(Normalize(form, JObject(members)))
    ensures WellKeyed(Normalize(form, JObject(members)))
    ensures Equivalent(JObject(members), Normalize(form, JObject(members)))
  {
    hide Arrange, NormalizeMembers, DistinctKeys;
    var arranged := Arrange(form, NormalizeMembers(form, members));
    ArrangedMembers(form, members);
    assert Normalize(form, JObject(members)) == JObject(arranged);
    forall i, j | 0 <= i < |members| && 0 <= j < |arranged| && members[i].key == arranged[j].key
      ensures Equivalent(members[i].value, arranged[j].value)
    {
      var k :| 0 <= k < |members| && IsNormalOf(form, arranged[j], members[k]);
      KeyDecides(members, i, k);
    }
  }

  predicate IsNormalOf(form: Form, m: Member<Json>, original: Member<Json>) {
    m == Member(original.key, Normalize(form, original.value))
  }

  lemma KeyDecides(members: seq<Member<Json>>, i: nat, k: nat)
    requires DistinctKeys(members) && i < |members| && k < |members| && members[i].key == members[k].key
    ensures i == k
  {
  }

  /** Arranging the normalised members of an object loses none, adds none and repeats no key. */
  lemma {:induction false} ArrangedMembers(form: Form, members: seq<Member<Json>>)
    requires DistinctKeys(members)
    ensures var arranged := Arrange(form, NormalizeMembers(form, members));
            && DistinctKeys(arranged)
            && (forall j | 0 <= j < |arranged| ::
                  exists i :: 0 <= i < |members| && IsNormalOf(form, arranged[j], members[i]))
            && (forall i | 0 <= i < |members| :: HasKey(arranged, members[i].key))
  {
    hide Arrange, SortedBy, FormOrder, Normalize;
    var nm := NormalizeMembers(form, members);
    var arranged := Arrange(form, nm);
    NormalizedKeys(form, members);
    ArrangeSorts(form, nm);
    SortedKeysDistinct(FormOrder(form), arranged);
    forall j | 0 <= j < |arranged|
      ensures exists i :: 0 <= i < |members| && IsNormalOf(form, arranged[j], members[i])
    {
      assert arranged[j] in nm;
      var i :| 0 <= i < |nm| && nm[i] == arranged[j];
      NormalizedMember(form, members, i);
    }
    forall i | 0 <= i < |members| ensures HasKey(arranged, members[i].key) {
      NormalizedMember(form, members, i);
      assert nm[i] in arranged;
    }
  }

  // ---------- the canonical form is faithful ----------

  /** One value, one text; different values, different texts. */
  lemma {:induction false} CanonicalTextFaithful(form: Form, a: Json, b: Json)
    requires WellKeyed(a) && WellKeyed(b) && NumbersValid(a) && NumbersValid(b)
    ensures CanonicalText(form, a) == CanonicalText(form, b) <==> Equivalent(a, b)
  {
    NormalFormsDecide(form, a, b);
    NormalFormValid(form, a);
    NormalFormValid(form, b);
    if CanonicalText(form, a) == CanonicalText(form, b) {
      PrintInjective(Normalize(form, a), Normalize(form, b));
    }
  }

  /** Normalising twice is normalising once. */
  lemma {:induction false} NormalizeIdempotent(form: Form, v: Json)
    requires WellKeyed(v)
    ensures Normalize(form, Normalize(form, v)) == Normalize(form, v)
  {
    NormalFormValid(form, v);
    NormalFormsDecide(form, v, Normalize(form, v));
  }

  /** Reading a canonical text gives back the value it stands for, up to member order. */
  lemma {:induction false} CanonicalTextReadsBack(form: Form, v: Json)
    requires WellKeyed(v) && NumbersValid(v)
    ensures ReadValue(CanonicalText(form, v)) == Some(Read(Normalize(form, v), []))
    ensures Equivalent(v, Normalize(form, v))
  {
    NormalFormValid(form, v);
    ReadPrinted(Normalize(form, v), []);
    assert CanonicalText(form, v) + [] == CanonicalText(form, v);
  }

  // ---------- what parsing makes of numbers ----------

  /**
    A number read and written again: the text that writing gives it, or null for
    one too large to hold. What is known of it: written text stays as it is.
   */
  ghost predicate IsRewriting(number: JsString -> Json) {
    forall t | IsNumberToken(t) ::
      || number(t).JNull?
      || (number(t).JNumber? && IsNumberToken(number(t).token) && number(number(t).token) == number(t))
  }

  /** Every number in the tree has the text that writing gives it. */
  predicate NumbersWritten(number: JsString -> Json, v: Json) {
    match v
    case JNumber(token) => IsNumberToken(token) && number(token) == v
    case JArray(items) => forall i | 0 <= i < |items| :: NumbersWritten(number, items[i])
    case JObject(members) => forall i | 0 <= i < |members| :: NumbersWritten(number, members[i].value)
    case _ => true
  }

  /** The tree with each of its numbers read and written again. */
  function Rewritten(number: JsString -> Json, v: Json): Json {
    match v
    case JNumber(token) => number(token)
    case JArray(items) => JArray(RewrittenItems(number, items))
    case JObject(members) => JObject(RewrittenMembers(number, members))
    case _ => v
  }

  function RewrittenItems(number: JsString -> Json, items: seq<Json>): (r: seq<Json>)
    ensures |r| == |items| && forall i | 0 <= i < |items| :: r[i] == Rewritten(number, items[i])
  {
    if items == [] then [] else [Rewritten(number, items[0])] + RewrittenItems(number, items[1..])
  }

  function RewrittenMembers(number: JsString -> Json, members: seq<Member<Json>>): (r: seq<Member<Json>>)
    ensures |r| == |members|
    ensures forall i | 0 <= i < |members| :: r[i] == Member(members[i].key, Rewritten(number, members[i].value))
  {
    if members == [] then []
    else [Member(members[0].key, Rewritten(number, members[0].value))] + RewrittenMembers(number, members[1..])
  }

  /** Rewriting leaves written numbers only, and keeps keys. */
  lemma {:induction false} RewritingWrites(number: JsString -> Json, v: Json)
    requires IsRewriting(number) && NumbersValid(v)
    ensures NumbersWritten(number, Rewritten(number, v))
    ensures WellKeyed(v) ==> WellKeyed(Rewritten(number, v))
  {
    match v
    case JArray(items) =>
      forall i | 0 <= i < |items|
        ensures NumbersWritten(number, Rewritten(number, items[i]))
        ensures WellKeyed(items[i]) ==> WellKeyed(Rewritten(number, items[i]))
      {
        RewritingWrites(number, items[i]);
      }
    case JObject(members) =>
      forall i | 0 <= i < |members|
        ensures NumbersWritten(number, Rewritten(number, members[i].value))
        ensures WellKeyed(members[i].value) ==> WellKeyed(Rewritten(number, members[i].value))
      {
        RewritingWrites(number, members[i].value);
      }
    case _ =>
  }

  /** Written numbers are numbers, and rewriting leaves them. */
  lemma {:induction false} WrittenStays(number: JsString -> Json, v: Json)
    requires NumbersWritten(number, v)
    ensures NumbersValid(v) && Rewritten(number, v) == v
  {
    match v
    case JArray(items) =>
      forall i | 0 <= i < |items| ensures NumbersValid(items[i]) && Rewritten(number, items[i]) == items[i] {
        WrittenStays(number, items[i]);
      }
      assert RewrittenItems(number, items) == items;
    case JObject(members) =>
      forall i | 0 <= i < |members|
        ensures NumbersValid(members[i].value) && Rewritten(number, members[i].value) == members[i].value
      {
        WrittenStays(number, members[i].value);
      }
      assert RewrittenMembers(number, members) == members;
    case _ =>
  }

  /** Equivalent values have the same numbers. */
  lemma {:induction false} EquivalentWritten(number: JsString -> Json, a: Json, b: Json)
    requires Equivalent(a, b) && NumbersWritten(number, a)
    ensures NumbersWritten(number, b)
  {
    match (a, b)
    case (JArray(xs), JArray(ys)) =>
      forall i | 0 <= i < |ys| ensures NumbersWritten(number, ys[i]) {
        EquivalentWritten(number, xs[i], ys[i]);
      }
    case (JObject(ms), JObject(ns)) =>
      forall j | 0 <= j < |ns| ensures NumbersWritten(number, ns[j].value) {
        assert HasKey(ms, ns[j].key);
        var i :| 0 <= i < |ms| && ms[i].key == ns[j].key;
        EquivalentWritten(number, ms[i].value, ns[j].value);
      }
    case _ =>
  }

  // ---------- the reader that accepts canonical texts only ----------

  /** The value a text holds, if it is one value and no more and no object in it repeats a member. */
  function Parsed(number: JsString -> Json, text: JsString): Option<Json> {
    var r := ReadValue(text);
    if r.Some? && r.value.rest == [] && WellKeyed(r.value.value) then Some(Rewritten(number, r.value.value)) else None
  }

  lemma {:induction false} ParsedIsValue(number: JsString -> Json, text: JsString)
    requires IsRewriting(number) && Parsed(number, text).Some?
    ensures var v := Parsed(number, text).value; WellKeyed(v) && NumbersWritten(number, v) && NumbersValid(v)
  {
    hide ReadValue, WellKeyed, NumbersValid, NumbersWritten, IsRewriting;
    ReadIsValid(text);
    RewritingWrites(number, ReadValue(text).value.value);
    WrittenStays(number, Parsed(number, text).value);
  }

  /** Parsing undoes canonical printing, up to member order. */
  lemma {:induction false} ParsesCanonicalText(form: Form, number: JsString -> Json, v: Json)
    requires WellKeyed(v) && NumbersWritten(number, v)
    ensures Parsed(number, CanonicalText(form, v)) == Some(Normalize(form, v))
    ensures NumbersValid(v)
  {
    hide ReadValue, WellKeyed, NumbersValid, NumbersWritten, Equivalent, Normalize, Print;
    WrittenStays(number, v);
    CanonicalTextReadsBack(form, v);
    NormalFormValid(form, v);
    EquivalentWritten(number, v, Normalize(form, v));
    WrittenStays(number, Normalize(form, v));
  }

  /** What is asked of a text: that printing the value it holds canonically gives the text back. */
  predicate Accepts(form: Form, number: JsString -> Json, text: JsString) {
    var parsed := Parsed(number, text);
    parsed.Some? && CanonicalText(form, parsed.value) == text
  }

  /** The canonical texts of values are all accepted, and no other text is. */
  lemma {:induction false} AcceptsExactlyCanonicalTexts(form: Form, number: JsString -> Json, text: JsString)
    requires IsRewriting(number)
    ensures Accepts(form, number, text)
       <==> exists v :: WellKeyed(v) && NumbersWritten(number, v) && text == CanonicalText(form, v)
  {
    hide Parsed, WellKeyed, NumbersValid, NumbersWritten, IsRewriting, Normalize, Print;
    if Accepts(form, number, text) {
      ParsedIsValue(number, text);
    }
    if v :| WellKeyed(v) && NumbersWritten(number, v) && text == CanonicalText(form, v) {
      ParsesCanonicalText(form, number, v);
      NormalizeIdempotent(form, v);
    }
  }

  /** An accepted text holds a normal form, and two of them are equal exactly when their values are equivalent. */
  lemma {:induction false} AcceptedTextsDecide(form: Form, number: JsString -> Json, s: JsString, t: JsString)
    requires IsRewriting(number) && Accepts(form, number, s) && Accepts(form, number, t)
    ensures var a, b := Parsed(number, s).value, Parsed(number, t).value;
            a == Normalize(form, a) && b == Normalize(form, b) && (s == t <==> Equivalent(a, b))
  {
    hide Parsed, WellKeyed, NumbersValid, NumbersWritten, IsRewriting, Normalize, Print, Equivalent;
    var a, b := Parsed(number, s).value, Parsed(number, t).value;
    ParsedIsValue(number, s);
    ParsedIsValue(number, t);
    ParsesCanonicalText(form, number, a);
    ParsesCanonicalText(form, number, b);
    CanonicalTextFaithful(form, a, b);
  }
}
