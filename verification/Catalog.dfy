/** The published model catalog, and the routing of model names. Each `char` is one rune. A valid
model id is ASCII, and so folding and lowering are modelled for the runes that can meet ASCII.
*/
module Catalog {
  import opened Json
  import opened Runes

  datatype Mapping = Mapping(publicModel: string, tone: string, displayName: string, level: string)

  datatype Spec = Spec(id: string, owner: string, displayName: string, level: string)

  /** What `strings.ToLower` makes of a rune: besides the ASCII capitals, the Kelvin sign and the
      dotted capital I become ASCII. */
  function LowerChar(c: char): char {
    if 'A' <= c <= 'Z' then c - 'A' + 'a'
    else if c == '\U{212A}' then 'k'
    else if c == '\U{0130}' then 'i'
    else c
  }

  function Lower(s: string): (r: string)
    ensures |r| == |s| && forall i :: 0 <= i < |s| ==> r[i] == LowerChar(s[i])
  {
    seq(|s|, i requires 0 <= i < |s| => LowerChar(s[i]))
  }

  /** What a rune is compared as by `strings.EqualFold`: the Kelvin sign folds with k, and the long
      s with s. */
  function FoldChar(c: char): char {
    if 'A' <= c <= 'Z' then c - 'A' + 'a'
    else if c == '\U{212A}' then 'k'
    else if c == '\U{017F}' then 's'
    else c
  }

  function Fold(s: string): (r: string)
    ensures |r| == |s| && forall i :: 0 <= i < |s| ==> r[i] == FoldChar(s[i])
  {
    seq(|s|, i requires 0 <= i < |s| => FoldChar(s[i]))
  }

  /** `strings.EqualFold`. */
  predicate SameFolded(a: string, b: string) {
    Fold(a) == Fold(b)
  }

  // ----- The uniqueness check of `validateSettings`

  predicate IdChar(c: char) {
    'A' <= c <= 'Z' || 'a' <= c <= 'z' || '0' <= c <= '9' || c in {'.', '_', '-'}
  }

  predicate ValidId(s: string) {
    1 <= |s| <= 128 && forall i :: 0 <= i < |s| ==> IdChar(s[i])
  }

  const TONES := {
    "Gpt_5_2_Chat", "Gpt_5_2_Reasoning", "Gpt_5_3_Chat", "Gpt_5_4_Chat", "Gpt_5_4_Reasoning", "Gpt_5_5_Chat",
    "Gpt_5_5_Reasoning", "Gpt_5_6_Reasoning", "Gpt_Quick", "Gpt_Reasoning", "Claude_Sonnet",
    "Claude_Sonnet_Reasoning"}

  const LEVELS := {"none", "minimal", "low", "medium", "high", "xhigh"}

  predicate ValidMapping(m: Mapping) {
    && ValidId(Trim(m.publicModel))
    && Trim(m.tone) in TONES
    && Trim(m.displayName) != ""
    && Lower(Trim(m.level)) in LEVELS
  }

  /** What a mapping must have: an id of 1 to 128 letters, digits, dots, underscores and hyphens, a
      known tone, a display name, and a known level in any case. */
  lemma ValidMappingExactly(m: Mapping)
    ensures ValidMapping(m)
            <==> var id := Trim(m.publicModel);
                 && 0 < |id| <= 128 && (forall i :: 0 <= i < |id| ==> IdChar(id[i]))
                 && Trim(m.tone) in TONES && Trim(m.displayName) != "" && Lower(Trim(m.level)) in LEVELS
  {
    hide Trim, IdChar;
  }

  /** What the check compares ids by. */
  function CheckedKey(m: Mapping): string {
    Lower(Trim(m.publicModel))
  }

  predicate ValidMappings(ms: seq<Mapping>) {
    && (forall i, j :: 0 <= i < j < |ms| ==> CheckedKey(ms[i]) != CheckedKey(ms[j]))
    && forall i :: 0 <= i < |ms| ==> ValidMapping(ms[i])
  }

  function CheckedKeys(ms: seq<Mapping>): (r: set<string>)
    ensures forall i :: 0 <= i < |ms| ==> CheckedKey(ms[i]) in r
    ensures forall k :: k in r ==> exists i :: 0 <= i < |ms| && CheckedKey(ms[i]) == k
  {
    set i | 0 <= i < |ms| :: CheckedKey(ms[i])
  }

  lemma CheckedKeysNext(ms: seq<Mapping>, i: nat)
    requires i < |ms|
    ensures CheckedKeys(ms[..i + 1]) == CheckedKeys(ms[..i]) + {CheckedKey(ms[i])}
    ensures CheckedKey(ms[i]) in CheckedKeys(ms[..i]) <==> exists j :: 0 <= j < i && CheckedKey(ms[j]) == CheckedKey(ms[i])
  {
    hide CheckedKey;
    var p, q := ms[..i], ms[..i + 1];
    assert q[i] == ms[i] && forall j :: 0 <= j < i ==> q[j] == p[j] == ms[j];
    forall j | 0 <= j < i ensures CheckedKey(p[j]) in CheckedKeys(q) {
      assert CheckedKey(q[j]) in CheckedKeys(q);
    }
    forall k | k in CheckedKeys(p) ensures k in CheckedKeys(q) {
      var j :| 0 <= j < i && CheckedKey(p[j]) == k;
    }
    if j :| 0 <= j < i && CheckedKey(ms[j]) == CheckedKey(ms[i]) {
      assert CheckedKey(p[j]) in CheckedKeys(p);
    }
    if CheckedKey(ms[i]) in CheckedKeys(p) {
      var j :| 0 <= j < i && CheckedKey(p[j]) == CheckedKey(ms[i]);
      assert CheckedKey(ms[j]) == CheckedKey(ms[i]);
    }
  }

  method CheckMappings(ms: seq<Mapping>) returns (ok: bool)
    ensures ok <==> ValidMappings(ms)
  {
    hide ValidMapping, CheckedKey;
    var seen: set<string> := {};
    for i := 0 to |ms|
      invariant seen == CheckedKeys(ms[..i])
      invariant forall j, k :: 0 <= j < k < i ==> CheckedKey(ms[j]) != CheckedKey(ms[k])
      invariant forall j :: 0 <= j < i ==> ValidMapping(ms[j])
    {
      CheckedKeysNext(ms, i);
      hide CheckedKeys;
      if CheckedKey(ms[i]) in seen {
        return false;
      }
      seen := seen + {CheckedKey(ms[i])};
      if !ValidMapping(ms[i]) {
        return false;
      }
    }
    return true;
  }

  // ----- Keys

  /** What ids are compared by when they are published and routed to. */
  function Key(m: Mapping): string {
    Fold(Trim(m.publicModel))
  }

  predicate UniqueKeys(ms: seq<Mapping>) {
    forall i, j :: 0 <= i < j < |ms| ==> Key(ms[i]) != Key(ms[j])
  }

  /** Of a valid id, the two keys are one. */
  lemma ValidKey(m: Mapping)
    requires ValidMapping(m)
    ensures Key(m) == CheckedKey(m)
  {
    hide Trim;
    IdFolds(Trim(m.publicModel));
  }

  lemma IdFolds(id: string)
    requires forall i :: 0 <= i < |id| ==> IdChar(id[i])
    ensures Fold(id) == Lower(id)
  {
    forall i | 0 <= i < |id| ensures FoldChar(id[i]) == LowerChar(id[i]) {
      assert IdChar(id[i]);
    }
  }

  /** So mappings that pass the check are distinct however they are asked for. */
  lemma CheckedAreUnique(ms: seq<Mapping>)
    requires ValidMappings(ms)
    ensures UniqueKeys(ms)
  {
    forall i | 0 <= i < |ms| ensures Key(ms[i]) == CheckedKey(ms[i]) {
      ValidKey(ms[i]);
    }
  }

  predicate HoldsKey(ms: seq<Mapping>, k: string) {
    exists j :: 0 <= j < |ms| && Key(ms[j]) == k
  }

  lemma HoldsKeyNext(ms: seq<Mapping>, i: nat)
    requires i < |ms|
    ensures forall k :: HoldsKey(ms[..i + 1], k) <==> HoldsKey(ms[..i], k) || k == Key(ms[i])
    ensures HoldsKey(ms[..i], Key(ms[i])) <==> exists j :: 0 <= j < i && Key(ms[j]) == Key(ms[i])
  {
    hide Key;
    var p, q := ms[..i], ms[..i + 1];
    assert q[i] == ms[i] && forall j :: 0 <= j < i ==> q[j] == p[j] == ms[j];
    forall k | HoldsKey(p, k) ensures HoldsKey(q, k) {
      var j :| 0 <= j < i && Key(p[j]) == k;
      assert Key(q[j]) == k;
    }
    if HoldsKey(p, Key(ms[i])) {
      var j :| 0 <= j < i && Key(p[j]) == Key(ms[i]);
      assert Key(ms[j]) == Key(ms[i]);
    }
    if j :| 0 <= j < i && Key(ms[j]) == Key(ms[i]) {
      assert Key(p[j]) == Key(ms[i]);
    }
  }

  // ----- `configuredModelMapping`

  predicate Matches(m: Mapping, model: string) {
    SameFolded(Trim(m.publicModel), Lower(Trim(model)))
  }

  function FirstMatch(model: string, ms: seq<Mapping>): Option<Mapping> {
    if ms == [] then None
    else if Matches(ms[0], model) then Some(ms[0])
    else FirstMatch(model, ms[1..])
  }

  /** `configuredModelTone`. */
  function ConfiguredTone(model: string, ms: seq<Mapping>): Option<string> {
    if FirstMatch(model, ms).Some? then Some(FirstMatch(model, ms).value.tone) else None
  }

  method ConfiguredModelMapping(model: string, ms: seq<Mapping>) returns (r: Option<Mapping>)
    ensures r == FirstMatch(model, ms)
  {
    var folded := Lower(Trim(model));
    for i := 0 to |ms|
      invariant FirstMatch(model, ms) == FirstMatch(model, ms[i..])
    {
      assert ms[i..][1..] == ms[i + 1..];
      if SameFolded(Trim(ms[i].publicModel), folded) {
        return Some(ms[i]);
      }
    }
    return None;
  }

  /** What a requested name is compared as: it is lowered before it is folded. */
  function Asked(model: string): string {
    Fold(Lower(Trim(model)))
  }

  lemma MatchesKey(m: Mapping, model: string)
    ensures Matches(m, model) <==> Key(m) == Asked(model)
  {
  }

  /** Routing finds a mapping exactly when it is the one of that key, wherever it stands. */
  lemma {:induction false} RoutesByKey(model: string, ms: seq<Mapping>, m: Mapping)
    requires UniqueKeys(ms)
    ensures FirstMatch(model, ms) == Some(m) <==> m in ms && Key(m) == Asked(model)
  {
    if ms != [] {
      var rest := ms[1..];
      assert ms == [ms[0]] + rest;
      assert forall i :: 0 <= i < |rest| ==> rest[i] == ms[i + 1];
      RoutesByKey(model, rest, m);
      MatchesKey(ms[0], model);
      FirstKeyNew(ms);
      hide Key, Matches, UniqueKeys;
    }
  }

  lemma FirstKeyNew(ms: seq<Mapping>)
    requires ms != [] && UniqueKeys(ms)
    ensures forall m :: m in ms[1..] ==> Key(m) != Key(ms[0])
  {
    hide Key;
    var rest := ms[1..];
    forall i | 0 <= i < |rest| ensures Key(rest[i]) != Key(ms[0]) {
      assert rest[i] == ms[i + 1];
    }
  }

  // ----- `configuredModelSpecs`

  const BUILT_IN := [
    Spec("gpt-5.2", "microsoft-365", "", ""),
    Spec("gpt-5.2-reasoning", "microsoft-365", "", ""),
    Spec("gpt-5.3", "microsoft-365", "", ""),
    Spec("gpt-5.4", "microsoft-365", "", ""),
    Spec("gpt-5.4-reasoning", "microsoft-365", "", ""),
    Spec("gpt-5.5", "microsoft-365", "", ""),
    Spec("gpt-5.5-reasoning", "microsoft-365", "", ""),
    Spec("gpt-5.6-reasoning", "microsoft-365", "", ""),
    Spec("claude-sonnet", "anthropic-via-microsoft-365", "", ""),
    Spec("claude-sonnet-reasoning", "anthropic-via-microsoft-365", "", "")]

  function SpecOf(m: Mapping): Spec {
    Spec(Trim(m.publicModel), "microsoft-365", Trim(m.displayName), Trim(m.level))
  }

  function SpecKey(s: Spec): string {
    Fold(s.id)
  }

  /** The first model of that key, or the length. */
  function Place(models: seq<Spec>, spec: Spec): (r: nat)
    ensures r <= |models|
    ensures r < |models| ==> SpecKey(models[r]) == SpecKey(spec)
    ensures forall i :: 0 <= i < r ==> SpecKey(models[i]) != SpecKey(spec)
  {
    if models == [] || SameFolded(models[0].id, spec.id) then 0 else 1 + Place(models[1..], spec)
  }

  function Publish(models: seq<Spec>, spec: Spec): seq<Spec> {
    var i := Place(models, spec);
    if i < |models| then models[i := spec] else models + [spec]
  }

  function Published(models: seq<Spec>, ms: seq<Mapping>): seq<Spec> {
    if ms == [] then models else Publish(Published(models, ms[..|ms| - 1]), SpecOf(ms[|ms| - 1]))
  }

  lemma {:induction false} PlaceIs(models: seq<Spec>, spec: Spec, i: nat)
    requires i < |models| && SameFolded(models[i].id, spec.id)
    requires forall j :: 0 <= j < i ==> !SameFolded(models[j].id, spec.id)
    ensures Place(models, spec) == i
  {
  }

  /** Overwrites in place, or appends. */
  method ConfiguredModelSpecs(ms: seq<Mapping>) returns (models: seq<Spec>)
    ensures models == Published(BUILT_IN, ms)
  {
    models := BUILT_IN;
    for k := 0 to |ms|
      invariant models == Published(BUILT_IN, ms[..k])
    {
      assert ms[..k + 1][..k] == ms[..k];
      var spec := SpecOf(ms[k]);
      models := Override(models, spec);
    }
    assert ms[..|ms|] == ms;
  }

  method Override(models: seq<Spec>, spec: Spec) returns (out: seq<Spec>)
    ensures out == Publish(models, spec)
  {
    for i := 0 to |models|
      invariant forall j :: 0 <= j < i ==> !SameFolded(models[j].id, spec.id)
    {
      if SameFolded(models[i].id, spec.id) {
        PlaceIs(models, spec, i);
        return models[i := spec];
      }
    }
    return models + [spec];
  }

  predicate UniqueSpecs(models: seq<Spec>) {
    forall i, j :: 0 <= i < j < |models| ==> SpecKey(models[i]) != SpecKey(models[j])
  }

  /** One override of a catalog without duplicates. */
  lemma PublishOne(models: seq<Spec>, spec: Spec, x: Spec)
    requires UniqueSpecs(models)
    ensures UniqueSpecs(Publish(models, spec))
    ensures x in Publish(models, spec) <==> x == spec || (x in models && SpecKey(x) != SpecKey(spec))
  {
    hide SpecKey;
    var out, i := Publish(models, spec), Place(models, spec);
    if i < |models| {
      assert forall j :: 0 <= j < |out| ==> out[j] == if j == i then spec else models[j];
      assert forall j :: 0 <= j < |out| && j != i ==> SpecKey(models[j]) != SpecKey(models[i]);
      assert out[i] == spec;
      forall j | 0 <= j < |models| && j != i ensures models[j] in out { assert out[j] == models[j]; }
    } else {
      assert out == models + [spec];
    }
  }

  predicate HoldsSpec(ms: seq<Mapping>, x: Spec) {
    exists i :: 0 <= i < |ms| && SpecOf(ms[i]) == x
  }

  lemma HoldsNext(ms: seq<Mapping>, m: Mapping, x: Spec)
    ensures HoldsSpec(ms + [m], x) <==> HoldsSpec(ms, x) || SpecOf(m) == x
    ensures forall k :: HoldsKey(ms + [m], k) <==> HoldsKey(ms, k) || Key(m) == k
  {
    hide Key, SpecOf;
    var q, n := ms + [m], |ms|;
    assert q[n] == m && q[..n] == ms && q[..n + 1] == q;
    HoldsKeyNext(q, n);
    hide HoldsKey;
    assert forall j :: 0 <= j < n ==> q[j] == ms[j];
    if HoldsSpec(ms, x) {
      var i :| 0 <= i < n && SpecOf(ms[i]) == x;
      assert SpecOf(q[i]) == x;
    }
  }

  lemma SpecHeldKeyHeld(ms: seq<Mapping>, x: Spec)
    requires HoldsSpec(ms, x)
    ensures HoldsKey(ms, SpecKey(x))
  {
    var i :| 0 <= i < |ms| && SpecOf(ms[i]) == x;
    SpecHasKey(ms[i]);
    hide Key, SpecOf, SpecKey;
  }

  lemma KeyHeld(ms: seq<Mapping>, m: Mapping)
    requires m in ms
    ensures HoldsKey(ms, Key(m))
  {
  }

  lemma SpecHasKey(m: Mapping)
    ensures SpecKey(SpecOf(m)) == Key(m)
  {
  }

  /** The catalog holds the specs of all mappings, and the built-in specs that no mapping
      overrides, each key once. */
  lemma {:induction false} PublishedExactly(models: seq<Spec>, ms: seq<Mapping>, x: Spec)
    requires UniqueSpecs(models) && UniqueKeys(ms)
    ensures UniqueSpecs(Published(models, ms))
    ensures x in Published(models, ms) <==> HoldsSpec(ms, x) || (x in models && !HoldsKey(ms, SpecKey(x)))
  {
    if ms != [] {
      var front, m := ms[..|ms| - 1], ms[|ms| - 1];
      assert ms == front + [m];
      FreshKey(front, m);
      PublishedExactly(models, front, x);
      PublishOne(Published(models, front), SpecOf(m), x);
      SpecHasKey(m);
      HoldsNext(front, m, x);
      if HoldsSpec(front, x) {
        SpecHeldKeyHeld(front, x);
      }
      hide SpecOf, SpecKey, Key, Publish, UniqueSpecs, HoldsSpec, HoldsKey;
    }
  }

  lemma FreshKey(front: seq<Mapping>, m: Mapping)
    requires UniqueKeys(front + [m])
    ensures UniqueKeys(front) && !HoldsKey(front, Key(m))
  {
    hide Key;
    var ms, n := front + [m], |front|;
    assert ms[n] == m && forall j :: 0 <= j < n ==> ms[j] == front[j];
  }

  /** The built-in ids differ in length or in their seventh character. */
  lemma BuiltInUnique()
    ensures UniqueSpecs(BUILT_IN)
  {
    forall i | 0 <= i < |BUILT_IN|
      ensures |BUILT_IN[i].id| == LENGTHS[i] && BUILT_IN[i].id[6] == SEVENTHS[i]
    {
    }
    KeysTell(BUILT_IN);
  }

  const LENGTHS := [7, 17, 7, 7, 17, 7, 17, 17, 13, 23]
  const SEVENTHS := "22344556--"

  lemma KeysTell(models: seq<Spec>)
    requires |models| == 10
    requires forall i :: 0 <= i < 10 ==> |models[i].id| == LENGTHS[i] && models[i].id[6] == SEVENTHS[i]
    ensures UniqueSpecs(models)
  {
    forall i | 0 <= i < 10
      ensures |SpecKey(models[i])| == LENGTHS[i] && SpecKey(models[i])[6] == SEVENTHS[i]
    {
    }
    hide SpecKey;
    forall i, j | 0 <= i < j < 10 ensures SpecKey(models[i]) != SpecKey(models[j]) {
      assert LENGTHS[i] != LENGTHS[j] || SEVENTHS[i] != SEVENTHS[j];
    }
  }

  // ----- The catalog as published

  function PublishedCatalog(ms: seq<Mapping>): seq<Spec> {
    Published(BUILT_IN, ms)
  }

  /** No id is published twice, whatever its case; every built-in id is there, and so is every
      mapping. */
  lemma {:induction false} CatalogComplete(ms: seq<Mapping>)
    requires UniqueKeys(ms)
    ensures UniqueSpecs(PublishedCatalog(ms))
    ensures forall i :: 0 <= i < |ms| ==> SpecOf(ms[i]) in PublishedCatalog(ms)
    ensures forall b :: b in BUILT_IN ==> exists x :: x in PublishedCatalog(ms) && SpecKey(x) == SpecKey(b)
  {
    hide BUILT_IN, SpecOf, SpecKey, Key;
    BuiltInUnique();
    PublishedExactly(BUILT_IN, ms, Spec("", "", "", ""));
    forall i | 0 <= i < |ms| ensures SpecOf(ms[i]) in PublishedCatalog(ms) {
      PublishedExactly(BUILT_IN, ms, SpecOf(ms[i]));
    }
    forall b | b in BUILT_IN ensures exists x :: x in PublishedCatalog(ms) && SpecKey(x) == SpecKey(b) {
      PublishedExactly(BUILT_IN, ms, b);
      if HoldsKey(ms, SpecKey(b)) {
        var i :| 0 <= i < |ms| && Key(ms[i]) == SpecKey(b);
        SpecHasKey(ms[i]);
        assert SpecOf(ms[i]) in PublishedCatalog(ms);
      }
    }
  }

  /** Asking for a published id, in any case, routes to the mapping that published it; a
      built-in id that no mapping overrides has no configured tone. */
  lemma {:induction false} RoutesAsPublished(ms: seq<Mapping>, x: Spec, model: string)
    requires UniqueKeys(ms) && x in PublishedCatalog(ms) && Asked(model) == SpecKey(x)
    ensures FirstMatch(model, ms).Some? ==> FirstMatch(model, ms).value in ms && SpecOf(FirstMatch(model, ms).value) == x
    ensures FirstMatch(model, ms).None? ==> x in BUILT_IN
  {
    hide BUILT_IN;
    BuiltInUnique();
    PublishedExactly(BUILT_IN, ms, x);
    if FirstMatch(model, ms).Some? {
      var m := FirstMatch(model, ms).value;
      RoutesByKey(model, ms, m);
      KeyHeld(ms, m);
    }
    hide FirstMatch, SpecKey, Key;
    if HoldsSpec(ms, x) {
      var i :| 0 <= i < |ms| && SpecOf(ms[i]) == x;
      SpecHasKey(ms[i]);
      RoutesByKey(model, ms, ms[i]);
    }
  }

  lemma SameMembers(a: seq<Mapping>, b: seq<Mapping>)
    requires multiset(a) == multiset(b)
    ensures forall m :: m in a <==> m in b
  {
    forall m ensures m in a <==> m in b {
      assert m in a <==> m in multiset(a);
      assert m in b <==> m in multiset(b);
    }
  }

  /** The order of the mappings matters neither to routing nor to what is published. */
  lemma {:induction false} OrderDoesNotMatter(a: seq<Mapping>, b: seq<Mapping>, model: string, x: Spec)
    requires UniqueKeys(a) && UniqueKeys(b) && multiset(a) == multiset(b)
    ensures ConfiguredTone(model, a) == ConfiguredTone(model, b)
    ensures x in PublishedCatalog(a) <==> x in PublishedCatalog(b)
  {
    hide BUILT_IN;
    SameMembers(a, b);
    if FirstMatch(model, a).Some? {
      RoutesByKey(model, a, FirstMatch(model, a).value);
      RoutesByKey(model, b, FirstMatch(model, a).value);
    } else if FirstMatch(model, b).Some? {
      RoutesByKey(model, a, FirstMatch(model, b).value);
      RoutesByKey(model, b, FirstMatch(model, b).value);
    }
    BuiltInUnique();
    PublishedExactly(BUILT_IN, a, x);
    PublishedExactly(BUILT_IN, b, x);
    HeldAlike(a, b, x);
    HeldAlike(b, a, x);
  }

  lemma HeldAlike(a: seq<Mapping>, b: seq<Mapping>, x: Spec)
    requires forall m :: m in a ==> m in b
    ensures HoldsSpec(a, x) ==> HoldsSpec(b, x)
    ensures HoldsKey(a, SpecKey(x)) ==> HoldsKey(b, SpecKey(x))
  {
    hide SpecOf, SpecKey, Key;
    if HoldsSpec(a, x) {
      var i :| 0 <= i < |a| && SpecOf(a[i]) == x;
      assert a[i] in a;
      var j :| 0 <= j < |b| && b[j] == a[i];
    }
    if HoldsKey(a, SpecKey(x)) {
      var i :| 0 <= i < |a| && Key(a[i]) == SpecKey(x);
      assert a[i] in a;
      var j :| 0 <= j < |b| && b[j] == a[i];
    }
  }

  // ----- What is published of a mapping

  /** A mapping is published under its id, with its name and level, and is owned by Microsoft 365. */
  predicate Publishes(x: Spec, m: Mapping) {
    && x.id == Trim(m.publicModel) && x.owner == "microsoft-365"
    && x.displayName == Trim(m.displayName) && x.level == Trim(m.level)
  }

  lemma MappingPublished(ms: seq<Mapping>, i: nat)
    requires UniqueKeys(ms) && i < |ms|
    ensures exists x :: x in PublishedCatalog(ms) && Publishes(x, ms[i])
  {
    CatalogComplete(ms);
    var x := SpecOf(ms[i]);
    assert Publishes(x, ms[i]);
    hide PublishedCatalog, SpecOf, Publishes, UniqueKeys;
    assert x in PublishedCatalog(ms);
  }

  /** Whoever asks for the id of a checked mapping, with any white space around it, gets its tone. */
  lemma ToneOfMapping(ms: seq<Mapping>, i: nat, model: string)
    requires ValidMappings(ms) && i < |ms| && Trim(model) == Trim(ms[i].publicModel)
    ensures ConfiguredTone(model, ms) == Some(ms[i].tone)
  {
    CheckedAreUnique(ms);
    assert ValidMapping(ms[i]);
    LoweredIdFolds(Trim(model));
    assert Asked(model) == Key(ms[i]);
    RoutesByKey(model, ms, ms[i]);
    hide Key, Asked, ValidMappings, UniqueKeys, Trim;
    assert ms[i] in ms;
  }

  /** Lowering an id first changes nothing about how it folds. */
  lemma LoweredIdFolds(id: string)
    requires forall i :: 0 <= i < |id| ==> IdChar(id[i])
    ensures Fold(Lower(id)) == Fold(id)
  {
    IdFolds(id);
    forall i | 0 <= i < |id| ensures FoldChar(LowerChar(id[i])) == FoldChar(id[i]) {
      assert IdChar(id[i]);
    }
    assert Fold(Lower(id)) == Fold(id);
  }
}
