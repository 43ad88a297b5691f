/** The Karabiner-Elements configuration manager: finding profiles in a
    loaded configuration, and editing a profile in place — appending and
    removing complex-modification rules, upserting simple key-to-key
    modifications — plus the constructors of rules and basic manipulators.
    A profile is a JSON object whose members keep their order, as Python
    dicts do; the configuration holds its profiles by reference, so a
    profile found in it and then edited is edited in the configuration. */
module Karabiner {
  import opened Wrappers
  import opened Json

  const ComplexKey := "complex_modifications"
  const SimpleKey := "simple_modifications"

  /** An optional argument that Python treats as given: present and truthy. */
  predicate Given(v: Option<Value>) {
    v.Some? && PyTruthy(v.value)
  }

  /** The index of the first element satisfying `p`. */
  function First(s: seq<Value>, p: Value -> bool): (r: Option<nat>)
    ensures r.Some? ==> r.value < |s| && p(s[r.value]) && forall j :: 0 <= j < r.value ==> !p(s[j])
    ensures r.None? ==> forall j :: 0 <= j < |s| ==> !p(s[j])
    decreases |s|
  {
    if s == [] then None
    else if p(s[0]) then Some(0)
    else match First(s[1..], p)
      case None => None
      case Some(i) => Some(i + 1)
  }

  /** How many elements a `for … return` loop reads: up to and including
      the first one satisfying `p`, or all of them. */
  function Scanned(s: seq<Value>, p: Value -> bool): (n: nat)
    ensures n <= |s|
  {
    match First(s, p)
    case Some(i) => i + 1
    case None => |s|
  }

  /** An element with no earlier one satisfying `p` is read by the loop. */
  lemma ScannedPast(s: seq<Value>, p: Value -> bool, i: nat)
    requires i < |s| && forall j :: 0 <= j < i ==> !p(s[j])
    ensures i < Scanned(s, p)
  {
  }

  /** The first index is the one no earlier element satisfies. */
  lemma FirstAt(s: seq<Value>, p: Value -> bool, i: nat)
    requires i < |s| && p(s[i]) && forall j :: 0 <= j < i ==> !p(s[j])
    ensures First(s, p) == Some(i)
  {
  }

  // ---------------------------------------------------------------------
  // Complex-modification rules

  /** `complex_modifications`, when present, is an object, so `get` and
      `in` apply to it. */
  predicate ComplexIsObject(entries: seq<Member>) {
    var cm := Get(entries, ComplexKey);
    cm.Some? ==> cm.value.Obj?
  }

  /** What `add_complex_rule` needs of a profile not to raise:
      `complex_modifications`, when present, is an object, and its `rules`,
      when present, is a list it can append to. */
  predicate ComplexShaped(entries: seq<Member>) {
    var cm := Get(entries, ComplexKey);
    cm.Some? ==> cm.value.Obj? && RulesShaped(cm.value.members)
  }

  predicate RulesShaped(cm: seq<Member>) {
    var rules := Get(cm, "rules");
    rules.Some? ==> rules.value.Arr?
  }

  /** The object `add_complex_rule` creates when there is none. */
  const FreshComplex := [Member("parameters", Obj([])), Member("rules", Arr([]))]

  /** The profile's `complex_modifications`, or the one `add_complex_rule` creates. */
  function ComplexOf(entries: seq<Member>): (cm: seq<Member>)
    requires ComplexIsObject(entries)
    ensures ComplexShaped(entries) ==> RulesShaped(cm)
  {
    match Get(entries, ComplexKey)
    case Some(v) => v.members
    case None => FreshComplex
  }

  /** The rules list; a missing one, and an empty object or string in its
      place, hold no rules. */
  function RulesIn(cm: seq<Member>): seq<Value> {
    match Get(cm, "rules")
    case Some(v) => if v.Arr? then v.items else []
    case None => []
  }

  function RulesOf(entries: seq<Member>): seq<Value>
    requires ComplexIsObject(entries)
  {
    RulesIn(ComplexOf(entries))
  }

  /** The profile after `add_complex_rule(profile, rule)`. */
  function WithRule(entries: seq<Member>, rule: Value): seq<Member>
    requires ComplexShaped(entries)
  {
    var cm := ComplexOf(entries);
    Set(entries, ComplexKey, Obj(Set(cm, "rules", Arr(RulesIn(cm) + [rule]))))
  }

  /** Adding a rule puts it last in the rules list, after the old rules
      (none when the containers were missing). */
  lemma WithRuleAppends(entries: seq<Member>, rule: Value)
    requires ComplexShaped(entries)
    ensures ComplexShaped(WithRule(entries, rule))
    ensures RulesOf(WithRule(entries, rule)) == RulesOf(entries) + [rule]
  {
    var cm := ComplexOf(entries);
    var cm' := Set(cm, "rules", Arr(RulesIn(cm) + [rule]));
    SetGetSame(entries, ComplexKey, Obj(cm'));
    SetGetSame(cm, "rules", Arr(RulesIn(cm) + [rule]));
  }

  /** Adding a rule leaves every other profile key and every other key of
      `complex_modifications` (its `parameters` among them) as it was; a
      missing `complex_modifications` is added last, with empty `parameters`. */
  lemma WithRuleKeeps(entries: seq<Member>, rule: Value)
    requires ComplexShaped(entries)
    ensures forall k :: k != ComplexKey ==> Get(WithRule(entries, rule), k) == Get(entries, k)
    ensures Keys(WithRule(entries, rule))
            == Keys(entries) + if Get(entries, ComplexKey).None? then [ComplexKey] else []
    ensures ComplexShaped(WithRule(entries, rule))
    ensures forall k :: k != "rules" ==> Get(ComplexOf(WithRule(entries, rule)), k) == Get(ComplexOf(entries), k)
    ensures Get(entries, ComplexKey).None? ==> Get(ComplexOf(WithRule(entries, rule)), "parameters") == Some(Obj([]))
  {
    var cm := ComplexOf(entries);
    var cm' := Set(cm, "rules", Arr(RulesIn(cm) + [rule]));
    WithRuleAppends(entries, rule);
    SetGetSame(entries, ComplexKey, Obj(cm'));
    SetKeys(entries, ComplexKey, Obj(cm'));
    if Get(entries, ComplexKey).None? {
      KeysAppend(entries, [Member(ComplexKey, Obj(cm'))]);
    }
    forall k | k != ComplexKey ensures Get(WithRule(entries, rule), k) == Get(entries, k) {
      SetGetOther(entries, ComplexKey, Obj(cm'), k);
    }
    forall k | k != "rules" ensures Get(cm', k) == Get(cm, k) {
      SetGetOther(cm, "rules", Arr(RulesIn(cm) + [rule]), k);
    }
    if Get(entries, ComplexKey).None? {
      SetGetOther(FreshComplex, "rules", Arr([rule]), "parameters");
    }
  }

  /** A rule is described by `description` when its `description` is that string. */
  predicate DescribedAs(rule: Value, description: string) {
    rule.Obj? && Get(rule.members, "description") == Some(Str(description))
  }

  /** What `remove_complex_rule` needs of a profile not to raise:
      `complex_modifications`, when present, is an object; its `rules`, when
      present, is either a list whose rules up to the first one so described
      are objects (`rule.get` is called on those and on no later one), or an
      empty object or string, over which the loop does not run. */
  predicate RemoveReads(entries: seq<Member>, description: string) {
    ComplexIsObject(entries)
    && match Get(ComplexOf(entries), "rules")
       case None => true
       case Some(v) =>
         if v.Arr? then forall j :: 0 <= j < Scanned(v.items, r => DescribedAs(r, description)) ==> v.items[j].Obj?
         else v == Obj([]) || v == Str("")
  }

  /** Under `RemoveReads` every rule the loop reads is an object. */
  lemma RemoveReadsRules(entries: seq<Member>, description: string)
    requires RemoveReads(entries, description)
    ensures forall j :: 0 <= j < Scanned(RulesOf(entries), r => DescribedAs(r, description)) ==> RulesOf(entries)[j].Obj?
  {
  }

  /** The profile after `remove_complex_rule(profile, description)`: the
      first rule so described is popped from the list where it stands. */
  function WithoutRule(entries: seq<Member>, description: string): seq<Member>
    requires ComplexIsObject(entries)
  {
    var rules := RulesOf(entries);
    match First(rules, r => DescribedAs(r, description))
    case None => entries
    case Some(i) =>
      Set(entries, ComplexKey, Obj(Set(ComplexOf(entries), "rules", Arr(rules[..i] + rules[i + 1..]))))
  }

  /** Removal takes out exactly the first rule so described, keeping the
      others in their order; it leaves the profile as it was when no rule
      is so described. */
  lemma WithoutRuleRemovesFirst(entries: seq<Member>, description: string)
    requires ComplexIsObject(entries)
    ensures ComplexIsObject(WithoutRule(entries, description))
    ensures var rules := RulesOf(entries);
            var i := First(rules, r => DescribedAs(r, description));
            (i.None? ==> WithoutRule(entries, description) == entries)
            && (i.Some? ==> RulesOf(WithoutRule(entries, description)) == rules[..i.value] + rules[i.value + 1..]
                            && |RulesOf(WithoutRule(entries, description))| == |rules| - 1)
  {
    var rules := RulesOf(entries);
    var i := First(rules, r => DescribedAs(r, description));
    if i.Some? {
      var cm := ComplexOf(entries);
      var rest := Arr(rules[..i.value] + rules[i.value + 1..]);
      SetGetSame(entries, ComplexKey, Obj(Set(cm, "rules", rest)));
      SetGetSame(cm, "rules", rest);
    }
  }

  /** Removal touches no profile key but `complex_modifications`, and no key
      of it but `rules`. */
  lemma WithoutRuleKeeps(entries: seq<Member>, description: string)
    requires ComplexIsObject(entries)
    ensures forall k :: k != ComplexKey ==> Get(WithoutRule(entries, description), k) == Get(entries, k)
    ensures Keys(WithoutRule(entries, description)) == Keys(entries)
    ensures ComplexIsObject(WithoutRule(entries, description))
    ensures forall k :: k != "rules" ==>
              Get(ComplexOf(WithoutRule(entries, description)), k) == Get(ComplexOf(entries), k)
  {
    var rules := RulesOf(entries);
    var i := First(rules, r => DescribedAs(r, description));
    WithoutRuleRemovesFirst(entries, description);
    if i.Some? {
      var cm := ComplexOf(entries);
      var cm' := Set(cm, "rules", Arr(rules[..i.value] + rules[i.value + 1..]));
      assert Get(entries, ComplexKey).Some?;
      SetKeys(entries, ComplexKey, Obj(cm'));
      SetGetSame(entries, ComplexKey, Obj(cm'));
      forall k | k != ComplexKey ensures Get(WithoutRule(entries, description), k) == Get(entries, k) {
        SetGetOther(entries, ComplexKey, Obj(cm'), k);
      }
      forall k | k != "rules" ensures Get(cm', k) == Get(cm, k) {
        SetGetOther(cm, "rules", Arr(rules[..i.value] + rules[i.value + 1..]), k);
      }
    }
  }

  /** Removal keeps the shape `add_complex_rule` needs. */
  lemma WithoutRuleShaped(entries: seq<Member>, description: string)
    requires ComplexShaped(entries)
    ensures ComplexShaped(WithoutRule(entries, description))
  {
    var rules := RulesOf(entries);
    var i := First(rules, r => DescribedAs(r, description));
    if i.Some? {
      var cm := ComplexOf(entries);
      var rest := Arr(rules[..i.value] + rules[i.value + 1..]);
      SetGetSame(entries, ComplexKey, Obj(Set(cm, "rules", rest)));
      SetGetSame(cm, "rules", rest);
    }
  }

  /** `create_rule(description, manipulators)`. */
  function CreateRule(description: string, manipulators: seq<Value>): (rule: Value)
    ensures DescribedAs(rule, description)
    ensures Get(rule.members, "manipulators") == Some(Arr(manipulators))
    ensures Keys(rule.members) == ["description", "manipulators"]
  {
    Obj([Member("description", Str(description)), Member("manipulators", Arr(manipulators))])
  }

  /** The profile with the containers `add_complex_rule` makes sure of
      before it appends: `complex_modifications` and its `rules` list. */
  function WithContainers(entries: seq<Member>): seq<Member>
    requires ComplexShaped(entries)
  {
    Set(entries, ComplexKey, Obj(Set(ComplexOf(entries), "rules", Arr(RulesOf(entries)))))
  }

  /** Adding a newly created rule and then removing it by its description,
      when no rule had that description, leaves the profile with the
      containers the addition created, and so gives back the profile itself
      when it already had them. */
  lemma AddThenRemove(entries: seq<Member>, description: string, manipulators: seq<Value>)
    requires ComplexShaped(entries)
    requires forall j :: 0 <= j < |RulesOf(entries)| ==> !DescribedAs(RulesOf(entries)[j], description)
    ensures ComplexShaped(WithRule(entries, CreateRule(description, manipulators)))
    ensures WithoutRule(WithRule(entries, CreateRule(description, manipulators)), description) == WithContainers(entries)
    ensures Get(entries, ComplexKey).Some? && Get(ComplexOf(entries), "rules").Some? ==> WithContainers(entries) == entries
  {
    var rule := CreateRule(description, manipulators);
    var rules := RulesOf(entries);
    var cm := ComplexOf(entries);
    var added := WithRule(entries, rule);
    WithRuleAppends(entries, rule);
    var p := r => DescribedAs(r, description);
    assert DescribedAs(rule, description);
    FirstAt(rules + [rule], p, |rules|);
    var cm' := Set(cm, "rules", Arr(rules + [rule]));
    SetGetSame(entries, ComplexKey, Obj(cm'));
    assert ComplexOf(added) == cm';
    assert (rules + [rule])[..|rules|] + (rules + [rule])[|rules| + 1..] == rules;
    SetTwice(cm, "rules", Arr(rules + [rule]), Arr(rules));
    SetTwice(entries, ComplexKey, Obj(cm'), Obj(Set(cm, "rules", Arr(rules))));
    if Get(entries, ComplexKey).Some? && Get(cm, "rules").Some? {
      SetUnchanged(cm, "rules", Arr(rules));
      SetUnchanged(entries, ComplexKey, Obj(cm));
    }
  }

  // ---------------------------------------------------------------------
  // Simple modifications

  /** `simple_modifications`, when present, is a list: the loop runs over
      it and `append` is called on it. */
  predicate SimpleIsList(entries: seq<Member>) {
    var mods := Get(entries, SimpleKey);
    mods.Some? ==> mods.value.Arr?
  }

  /** What `add_simple_modification(profile, from_key, …)` needs of a
      profile not to raise: the list, when present, is a list, and every
      entry the loop reads — up to the first of `from_key` — is an object
      whose `from`, when present, is an object. Later entries are never
      read. */
  predicate SimpleShaped(entries: seq<Member>, fromKey: string) {
    SimpleIsList(entries) && ShapedUpTo(ModsOf(entries), fromKey)
  }

  predicate ShapedUpTo(mods: seq<Value>, fromKey: string) {
    forall j :: 0 <= j < Scanned(mods, m => Remaps(m, fromKey)) ==> ModShaped(mods[j])
  }

  predicate ModShaped(m: Value) {
    m.Obj? && (Get(m.members, "from").Some? ==> Get(m.members, "from").value.Obj?)
  }

  function ModsOf(entries: seq<Member>): seq<Value>
    requires SimpleIsList(entries)
  {
    match Get(entries, SimpleKey)
    case Some(v) => v.items
    case None => []
  }

  /** `mod.get('from', {}).get('key_code') == from_key`. */
  predicate Remaps(mod: Value, fromKey: string) {
    mod.Obj? && match Get(mod.members, "from")
      case Some(from) => from.Obj? && Get(from.members, "key_code") == Some(Str(fromKey))
      case None => false
  }

  /** `[{'key_code': key}]`. */
  function KeyCodes(key: string): Value {
    Arr([Obj([Member("key_code", Str(key))])])
  }

  /** The entry appended for a new modification. */
  function NewMod(fromKey: string, toKey: string): Value {
    Obj([Member("from", Obj([Member("key_code", Str(fromKey))])), Member("to", KeyCodes(toKey))])
  }

  /** The modification whose `to` is replaced. */
  function Retargeted(mod: Value, toKey: string): (r: Value)
    requires ModShaped(mod)
    ensures ModShaped(r)
  {
    SetGetOther(mod.members, "to", KeyCodes(toKey), "from");
    Obj(Set(mod.members, "to", KeyCodes(toKey)))
  }

  /** The modification list after the upsert. */
  function Upserted(mods: seq<Value>, fromKey: string, toKey: string): (r: seq<Value>)
    requires ShapedUpTo(mods, fromKey)
    ensures ShapedUpTo(r, fromKey)
  {
    match First(mods, m => Remaps(m, fromKey))
    case Some(i) =>
      var x := Retargeted(mods[i], toKey);
      RetargetedSpec(mods[i], toKey);
      ShapedAfterRetarget(mods, fromKey, i, x);
      mods[i := x]
    case None =>
      NewModRemaps(fromKey, toKey);
      ShapedAfterAppend(mods, fromKey, NewMod(fromKey, toKey));
      mods + [NewMod(fromKey, toKey)]
  }

  /** A modification of `from_key` has the shape the loop relies on. */
  lemma RemapsShaped(m: Value, fromKey: string)
    requires Remaps(m, fromKey)
    ensures ModShaped(m)
  {
  }

  /** Replacing the first modification of `from_key` by another of it keeps
      the entries the loop reads in shape. */
  lemma ShapedAfterRetarget(mods: seq<Value>, fromKey: string, i: nat, x: Value)
    requires ShapedUpTo(mods, fromKey) && First(mods, m => Remaps(m, fromKey)) == Some(i)
    requires Remaps(x, fromKey)
    ensures ShapedUpTo(mods[i := x], fromKey)
  {
    var p := m => Remaps(m, fromKey);
    FirstAfterUpdate(mods, p, i, x);
    RemapsShaped(x, fromKey);
    var t := mods[i := x];
    forall j | 0 <= j < Scanned(t, p) ensures ModShaped(t[j]) {
      if j < i {
        assert t[j] == mods[j];
      }
    }
  }

  /** Appending a modification of `from_key` where there was none keeps
      the entries the loop reads in shape. */
  lemma ShapedAfterAppend(mods: seq<Value>, fromKey: string, x: Value)
    requires ShapedUpTo(mods, fromKey) && First(mods, m => Remaps(m, fromKey)).None?
    requires Remaps(x, fromKey)
    ensures ShapedUpTo(mods + [x], fromKey)
  {
    var p := m => Remaps(m, fromKey);
    FirstAt(mods + [x], p, |mods|);
    RemapsShaped(x, fromKey);
    var t := mods + [x];
    forall j | 0 <= j < Scanned(t, p) ensures ModShaped(t[j]) {
      if j < |mods| {
        assert t[j] == mods[j];
      }
    }
  }

  /** The profile after `add_simple_modification(profile, from_key, to_key)`. */
  function WithSimple(entries: seq<Member>, fromKey: string, toKey: string): seq<Member>
    requires SimpleShaped(entries, fromKey)
  {
    Set(entries, SimpleKey, Arr(Upserted(ModsOf(entries), fromKey, toKey)))
  }

  /** Retargeting sets `to` and keeps every other key, `from` among them. */
  lemma RetargetedSpec(mod: Value, toKey: string)
    requires ModShaped(mod)
    ensures Retargeted(mod, toKey).Obj?
    ensures Get(Retargeted(mod, toKey).members, "to") == Some(KeyCodes(toKey))
    ensures forall k :: k != "to" ==> Get(Retargeted(mod, toKey).members, k) == Get(mod.members, k)
  {
    SetGetSame(mod.members, "to", KeyCodes(toKey));
    forall k | k != "to" ensures Get(Set(mod.members, "to", KeyCodes(toKey)), k) == Get(mod.members, k) {
      SetGetOther(mod.members, "to", KeyCodes(toKey), k);
    }
  }

  /** When a modification of `from_key` exists, only the first one changes,
      and only its `to`; the list keeps its length. Otherwise exactly one
      entry is appended. */
  lemma UpsertSpec(mods: seq<Value>, fromKey: string, toKey: string)
    requires ShapedUpTo(mods, fromKey)
    ensures var r := Upserted(mods, fromKey, toKey);
            match First(mods, m => Remaps(m, fromKey))
            case Some(i) =>
              |r| == |mods| && r[i].Obj?
              && Get(r[i].members, "to") == Some(KeyCodes(toKey))
              && (forall k :: k != "to" ==> Get(r[i].members, k) == Get(mods[i].members, k))
              && forall j :: 0 <= j < |mods| && j != i ==> r[j] == mods[j]
            case None => r == mods + [NewMod(fromKey, toKey)]
  {
    var i := First(mods, m => Remaps(m, fromKey));
    if i.Some? {
      RetargetedSpec(mods[i.value], toKey);
    }
  }

  /** After the upsert `from_key` is first found where it was found before,
      or at the appended entry, and there it maps to `to_key`. */
  lemma UpsertFound(mods: seq<Value>, fromKey: string, toKey: string)
    requires ShapedUpTo(mods, fromKey)
    ensures var r := Upserted(mods, fromKey, toKey);
            First(r, m => Remaps(m, fromKey))
            == Some(match First(mods, m => Remaps(m, fromKey)) case Some(j) => j case None => |mods|)
  {
    if First(mods, m => Remaps(m, fromKey)).Some? {
      FoundAgain(mods, fromKey, toKey);
    } else {
      FoundAppended(mods, fromKey, toKey);
    }
  }

  lemma FoundAgain(mods: seq<Value>, fromKey: string, toKey: string)
    requires ShapedUpTo(mods, fromKey) && First(mods, m => Remaps(m, fromKey)).Some?
    ensures First(Upserted(mods, fromKey, toKey), m => Remaps(m, fromKey)) == First(mods, m => Remaps(m, fromKey))
  {
    var p := m => Remaps(m, fromKey);
    var i := First(mods, p).value;
    var x := Retargeted(mods[i], toKey);
    assert Remaps(x, fromKey) by {
      RetargetedSpec(mods[i], toKey);
    }
    FirstAfterUpdate(mods, p, i, x);
  }

  lemma FoundAppended(mods: seq<Value>, fromKey: string, toKey: string)
    requires ShapedUpTo(mods, fromKey) && First(mods, m => Remaps(m, fromKey)).None?
    ensures First(Upserted(mods, fromKey, toKey), m => Remaps(m, fromKey)) == Some(|mods|)
  {
    var p := m => Remaps(m, fromKey);
    var x := NewMod(fromKey, toKey);
    assert p(x) by {
      NewModRemaps(fromKey, toKey);
    }
    FirstAt(mods + [x], p, |mods|);
  }

  lemma NewModRemaps(fromKey: string, toKey: string)
    ensures Remaps(NewMod(fromKey, toKey), fromKey)
  {
    var from := Obj([Member("key_code", Str(fromKey))]);
    assert Get(NewMod(fromKey, toKey).members, "from") == Some(from);
  }

  /** Putting an element that satisfies `p` at `i`, where no earlier element
      does, makes `i` the first index. */
  lemma FirstAfterUpdate(s: seq<Value>, p: Value -> bool, i: nat, x: Value)
    requires i < |s| && p(x) && forall j :: 0 <= j < i ==> !p(s[j])
    ensures First(s[i := x], p) == Some(i)
  {
    FirstAt(s[i := x], p, i);
  }

  /** The upsert is idempotent: doing it twice is doing it once. */
  lemma UpsertIdempotent(mods: seq<Value>, fromKey: string, toKey: string)
    requires ShapedUpTo(mods, fromKey)
    ensures Upserted(Upserted(mods, fromKey, toKey), fromKey, toKey) == Upserted(mods, fromKey, toKey)
  {
    var r := Upserted(mods, fromKey, toKey);
    UpsertFound(mods, fromKey, toKey);
    match First(mods, m => Remaps(m, fromKey))
    case Some(i) =>
      SetTwice(mods[i].members, "to", KeyCodes(toKey), KeyCodes(toKey));
      assert Retargeted(r[i], toKey) == r[i];
    case None =>
      SetUnchanged(NewMod(fromKey, toKey).members, "to", KeyCodes(toKey));
      assert Retargeted(r[|mods|], toKey) == r[|mods|];
  }

  /** The profile-level upsert is idempotent too, and touches no other key. */
  lemma WithSimpleIdempotent(entries: seq<Member>, fromKey: string, toKey: string)
    requires SimpleShaped(entries, fromKey)
    ensures SimpleShaped(WithSimple(entries, fromKey, toKey), fromKey)
    ensures WithSimple(WithSimple(entries, fromKey, toKey), fromKey, toKey) == WithSimple(entries, fromKey, toKey)
    ensures forall k :: k != SimpleKey ==> Get(WithSimple(entries, fromKey, toKey), k) == Get(entries, k)
  {
    var r := Upserted(ModsOf(entries), fromKey, toKey);
    SetGetSame(entries, SimpleKey, Arr(r));
    UpsertIdempotent(ModsOf(entries), fromKey, toKey);
    SetTwice(entries, SimpleKey, Arr(r), Arr(r));
    forall k | k != SimpleKey ensures Get(WithSimple(entries, fromKey, toKey), k) == Get(entries, k) {
      SetGetOther(entries, SimpleKey, Arr(r), k);
    }
  }

  // ---------------------------------------------------------------------
  // Manipulators

  /** An optional value kept only when Python treats it as given. */
  function IfGiven(v: Option<Value>): Option<Value> {
    if Given(v) then v else None
  }

  /** `{'key_code': key}`, with `modifiers` added last when given. */
  function KeyEvent(key: string, modifiers: Option<Value>): seq<Member> {
    [Member("key_code", Str(key))] + if Given(modifiers) then [Member("modifiers", modifiers.value)] else []
  }

  /** `create_basic_manipulator(from_key, to_key, from_modifiers,
      to_modifiers, conditions)`. */
  function BasicManipulator(fromKey: string, toKey: string, fromModifiers: Option<Value>,
                            toModifiers: Option<Value>, conditions: Option<Value>): Value
  {
    Obj([Member("type", Str("basic")),
         Member("from", Obj(KeyEvent(fromKey, fromModifiers))),
         Member("to", Arr([Obj(KeyEvent(toKey, toModifiers))]))]
        + if Given(conditions) then [Member("conditions", conditions.value)] else [])
  }

  /** A key event reads back its key code, and its modifiers exactly when given. */
  lemma KeyEventReadsBack(key: string, modifiers: Option<Value>)
    ensures Get(KeyEvent(key, modifiers), "key_code") == Some(Str(key))
    ensures Get(KeyEvent(key, modifiers), "modifiers") == IfGiven(modifiers)
    ensures Keys(KeyEvent(key, modifiers)) == ["key_code"] + if Given(modifiers) then ["modifiers"] else []
  {
  }

  /** A basic manipulator is of type `basic`, has the keys `type`, `from`,
      `to` and, when given, `conditions`, in that order; its `from` event and
      the one event in `to` carry the keys and, when given, the modifiers. */
  lemma ManipulatorFields(fromKey: string, toKey: string, fromModifiers: Option<Value>,
                          toModifiers: Option<Value>, conditions: Option<Value>)
    ensures Keys(BasicManipulator(fromKey, toKey, fromModifiers, toModifiers, conditions).members)
            == ["type", "from", "to"] + (if Given(conditions) then ["conditions"] else [])
    ensures Get(BasicManipulator(fromKey, toKey, fromModifiers, toModifiers, conditions).members, "type")
            == Some(Str("basic"))
    ensures Get(BasicManipulator(fromKey, toKey, fromModifiers, toModifiers, conditions).members, "from")
            == Some(Obj(KeyEvent(fromKey, fromModifiers)))
    ensures Get(BasicManipulator(fromKey, toKey, fromModifiers, toModifiers, conditions).members, "to")
            == Some(Arr([Obj(KeyEvent(toKey, toModifiers))]))
    ensures Get(BasicManipulator(fromKey, toKey, fromModifiers, toModifiers, conditions).members, "conditions")
            == IfGiven(conditions)
  {
    var ms := BasicManipulator(fromKey, toKey, fromModifiers, toModifiers, conditions).members;
    assert Get(ms, "to") == Get(ms[1..], "to") == Get(ms[2..], "to");
    assert Get(ms, "conditions") == Get(ms[1..], "conditions") == Get(ms[2..], "conditions") == Get(ms[3..], "conditions");
  }

  /** Read back through `from`: the manipulator is found by the matcher of
      simple modifications for its own `from_key`, and for no other key. */
  lemma ManipulatorRemaps(fromKey: string, toKey: string, fromModifiers: Option<Value>,
                          toModifiers: Option<Value>, conditions: Option<Value>, key: string)
    ensures Remaps(BasicManipulator(fromKey, toKey, fromModifiers, toModifiers, conditions), key) <==> key == fromKey
  {
    ManipulatorFields(fromKey, toKey, fromModifiers, toModifiers, conditions);
    KeyEventReadsBack(fromKey, fromModifiers);
  }

  // ---------------------------------------------------------------------
  // Profiles and the configuration

  /** A profile: a JSON object edited in place. */
  class Profile {
    var entries: seq<Member>

    constructor (entries: seq<Member>)
      ensures this.entries == entries
    {
      this.entries := entries;
    }

    /** `add_complex_rule`: creates the containers when missing, then
        appends the rule. */
    method AddComplexRule(rule: Value)
      requires ComplexShaped(entries)
      modifies this
      ensures entries == WithRule(old(entries), rule)
    {
      ghost var e0 := entries;
      if Get(entries, ComplexKey).None? {
        entries := Set(entries, ComplexKey, Obj(FreshComplex));
        SetGetSame(e0, ComplexKey, Obj(FreshComplex));
      }
      var cm := Get(entries, ComplexKey).value.members;
      ghost var cm0 := cm;
      assert cm0 == ComplexOf(e0);
      ghost var e1 := entries;
      if Get(cm, "rules").None? {
        cm := Set(cm, "rules", Arr([]));
        entries := Set(entries, ComplexKey, Obj(cm));
        SetGetSame(cm0, "rules", Arr([]));
      }
      var rules := Get(cm, "rules").value.items;
      assert rules == RulesIn(cm0);
      entries := Set(entries, ComplexKey, Obj(Set(cm, "rules", Arr(rules + [rule]))));
      SetTwice(cm0, "rules", Arr([]), Arr(rules + [rule]));
      SetTwice(e1, ComplexKey, Obj(cm), Obj(Set(cm, "rules", Arr(rules + [rule]))));
      SetTwice(e0, ComplexKey, Obj(FreshComplex), Obj(Set(cm0, "rules", Arr(rules + [rule]))));
    }

    /** `remove_complex_rule`: pops the first rule so described and says
        whether there was one. */
    method RemoveComplexRule(description: string) returns (found: bool)
      requires RemoveReads(entries, description)
      modifies this
      ensures found <==> First(RulesOf(old(entries)), r => DescribedAs(r, description)).Some?
      ensures entries == WithoutRule(old(entries), description)
    {
      var rules: seq<Value> := [];
      var cm: seq<Member> := [];
      if Get(entries, ComplexKey).Some? {
        cm := Get(entries, ComplexKey).value.members;
        var listed := Get(cm, "rules");
        if listed.Some? && listed.value.Arr? {
          rules := listed.value.items;
        }
      }
      assert rules == RulesOf(entries);
      RemoveReadsRules(entries, description);
      var i := 0;
      while i < |rules|
        invariant 0 <= i <= |rules|
        invariant forall j :: 0 <= j < i ==> !DescribedAs(rules[j], description)
        invariant entries == old(entries)
      {
        ScannedPast(rules, r => DescribedAs(r, description), i);
        if Get(rules[i].members, "description") == Some(Str(description)) {
          FirstAt(rules, r => DescribedAs(r, description), i);
          entries := Set(entries, ComplexKey, Obj(Set(cm, "rules", Arr(rules[..i] + rules[i + 1..]))));
          return true;
        }
        i := i + 1;
      }
      assert First(rules, r => DescribedAs(r, description)).None?;
      return false;
    }

    /** `add_simple_modification`: the first modification of `from_key` now
        maps to `to_key`; without one, a new modification is appended. */
    method AddSimpleModification(fromKey: string, toKey: string)
      requires SimpleShaped(entries, fromKey)
      modifies this
      ensures entries == WithSimple(old(entries), fromKey, toKey)
    {
      ghost var e0 := entries;
      if Get(entries, SimpleKey).None? {
        entries := Set(entries, SimpleKey, Arr([]));
        SetGetSame(e0, SimpleKey, Arr([]));
      }
      ghost var e1 := entries;
      var mods := Get(entries, SimpleKey).value.items;
      assert mods == ModsOf(e0);
      var i := 0;
      while i < |mods|
        invariant 0 <= i <= |mods|
        invariant mods == ModsOf(e0)
        invariant forall j :: 0 <= j < i ==> !Remaps(mods[j], fromKey)
      {
        var mod := mods[i];
        var from := Get(mod.members, "from");
        if from.Some? && Get(from.value.members, "key_code") == Some(Str(fromKey)) {
          FirstAt(mods, m => Remaps(m, fromKey), i);
          mods := mods[i := Obj(Set(mod.members, "to", KeyCodes(toKey)))];
          entries := Set(entries, SimpleKey, Arr(mods));
          SetTwice(e0, SimpleKey, Arr([]), Arr(mods));
          return;
        }
        i := i + 1;
      }
      entries := Set(entries, SimpleKey, Arr(mods + [NewMod(fromKey, toKey)]));
      SetTwice(e0, SimpleKey, Arr([]), Arr(mods + [NewMod(fromKey, toKey)]));
    }
  }

  /** A loaded configuration: its profiles, held by reference. */
  class Config {
    var profiles: seq<Profile>

    constructor (profiles: seq<Profile>)
      ensures this.profiles == profiles
    {
      this.profiles := profiles;
    }

    /** `get_selected_profile`: the first profile whose `selected` is truthy. */
    method SelectedProfile() returns (p: Option<Profile>)
      ensures p.Some? ==> exists i :: 0 <= i < |profiles| && profiles[i] == p.value && Selected(profiles[i])
                                      && forall j :: 0 <= j < i ==> !Selected(profiles[j])
      ensures p.None? ==> forall i :: 0 <= i < |profiles| ==> !Selected(profiles[i])
    {
      for i := 0 to |profiles|
        invariant forall j :: 0 <= j < i ==> !Selected(profiles[j])
      {
        var selected := Get(profiles[i].entries, "selected");
        if selected.Some? && PyTruthy(selected.value) {
          return Some(profiles[i]);
        }
      }
      return None;
    }

    /** `get_profile_by_name`: the first profile whose `name` is exactly `name`. */
    method ProfileByName(name: string) returns (p: Option<Profile>)
      ensures p.Some? ==> exists i :: 0 <= i < |profiles| && profiles[i] == p.value && Named(profiles[i], name)
                                      && forall j :: 0 <= j < i ==> !Named(profiles[j], name)
      ensures p.None? ==> forall i :: 0 <= i < |profiles| ==> !Named(profiles[i], name)
    {
      for i := 0 to |profiles|
        invariant forall j :: 0 <= j < i ==> !Named(profiles[j], name)
      {
        if Get(profiles[i].entries, "name") == Some(Str(name)) {
          return Some(profiles[i]);
        }
      }
      return None;
    }

    /** `list_profiles`: each profile's name in order, 'Unnamed' when it has none. */
    function ProfileNames(): (names: seq<Value>)
      reads this, profiles
      ensures |names| == |profiles|
      ensures forall i :: 0 <= i < |profiles| ==>
                names[i] == if Get(profiles[i].entries, "name").Some? then Get(profiles[i].entries, "name").value else Str("Unnamed")
    {
      NamesOf(profiles)
    }
  }

  predicate Selected(p: Profile)
    reads p
  {
    var s := Get(p.entries, "selected");
    s.Some? && PyTruthy(s.value)
  }

  predicate Named(p: Profile, name: string)
    reads p
  {
    Get(p.entries, "name") == Some(Str(name))
  }

  function NameOf(p: Profile): Value
    reads p
  {
    match Get(p.entries, "name")
    case Some(v) => v
    case None => Str("Unnamed")
  }

  function NamesOf(ps: seq<Profile>): (names: seq<Value>)
    reads ps
    ensures |names| == |ps|
    ensures forall i :: 0 <= i < |ps| ==> names[i] == NameOf(ps[i])
  {
    if ps == [] then [] else [NameOf(ps[0])] + NamesOf(ps[1..])
  }
}
