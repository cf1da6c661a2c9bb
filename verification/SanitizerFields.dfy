/**
 * What the sanitiser makes of one field of a record and which events it reports, in terms of the policy's
 * lists and the host's text operations (crates/statguardian-stream/src/sanitize.rs).
 */
module SanitizerFields {
  import opened Sequences
  import opened Sanitizer
  import opened SanitizerLaws
  import Fnv

  /** The rule list holds this strategy for the key, and no rule for the key before it. */
  ghost predicate Redacts(p: Policy, key: string, strategy: Strategy) {
    var rules := p.redaction.rules;
    exists i :: 0 <= i < |rules| && rules[i] == RedactionRule(key, strategy) && forall j :: 0 <= j < i ==> rules[j].field != key
  }

  ghost predicate Unredacted(p: Policy, key: string) { forall rule :: rule in p.redaction.rules ==> rule.field != key }

  lemma {:induction false} FirstRuleRedacts(rules: seq<RedactionRule>, key: string)
    ensures match FirstRule(rules, key)
            case Some(strategy) =>
              exists i :: 0 <= i < |rules| && rules[i] == RedactionRule(key, strategy) && forall j :: 0 <= j < i ==> rules[j].field != key
            case None => forall rule :: rule in rules ==> rule.field != key
  {
    if rules == [] {
    } else {
      FirstRuleRedacts(rules[1..], key);
      if rules[0].field == key {
        assert rules[0] == RedactionRule(key, rules[0].strategy);
      } else if FirstRule(rules[1..], key).Some? {
        var i :| 0 <= i < |rules| - 1 && rules[1..][i] == RedactionRule(key, FirstRule(rules, key).value)
                 && forall j :: 0 <= j < i ==> rules[1..][j].field != key;
        assert rules[i + 1] == rules[1..][i];
        assert forall j :: 0 < j < i + 1 ==> rules[j] == rules[1..][j - 1];
      }
    }
  }

  lemma RuleForRedacts(p: Policy, key: string, strategy: Strategy)
    ensures RuleFor(p, key) == Some(strategy) <==> Redacts(p, key, strategy)
    ensures RuleFor(p, key) == None <==> Unredacted(p, key)
  {
    FirstRuleRedacts(p.redaction.rules, key);
  }

  // ---- Text fields ----

  /** An unredacted text shows what the lists that name its field ask for: trimming, then lower case, then upper case. */
  lemma ListedFieldShows(p: Policy, v: Json, path: seq<PathStep>, key: string, text: string)
    requires p.Deep() || path == []
    requires Clean(p, path + [Key(key)]) && Unredacted(p, key) && Find(v, path + [Key(key)]) == Some(JString(text))
    ensures var trims, lowers, uppers := key in p.normalization.trim, key in p.normalization.lowercase, key in p.normalization.uppercase;
            var trimmed := if trims then p.ops.trim(text) else text;
            var lowered := if lowers then p.ops.lower(trimmed) else trimmed;
            Find(WalkValue(p, v), path + [Key(key)]) == Some(JString(if uppers then p.ops.upper(lowered) else lowered))
  {
    var whole := path + [Key(key)];
    assert whole[|whole| - 1] == Key(key);
    RuleForRedacts(p, key, Mask);
    WhatAPathHolds(p, v, whole);
    TextBecomes(p, key, text);
  }

  lemma TextBecomes(p: Policy, key: string, text: string)
    requires RuleFor(p, key) == None
    ensures AtStep(p, Key(key), JString(text)) == Some(JString(NormalText(p, key, text)))
  {
    var m := Member(key, JString(text));
    assert Normalize(p, m.key, m.value) == JString(NormalText(p, key, text));
    assert WalkValue(p, JString(NormalText(p, key, text))) == JString(NormalText(p, key, text));
    assert AtStep(p, Key(key), m.value) == NewValue(p, m);
  }

  // ---- Events ----

  function When(condition: bool, path: string, kind: Kind): seq<Event> { if condition then [Event(path, kind)] else [] }

  /** The events of an unredacted text: one for each step that changes it. */
  function TextEvents(p: Policy, key: string, text: string, path: string): seq<Event> {
    var trims, lowers, uppers := key in p.normalization.trim, key in p.normalization.lowercase, key in p.normalization.uppercase;
    var trimmed := if trims then p.ops.trim(text) else text;
    var lowered := if lowers then p.ops.lower(trimmed) else trimmed;
    When(trims && p.ops.trim(text) != text, path, Trimmed) + When(lowers && p.ops.lower(trimmed) != trimmed, path, Lowercased)
    + When(uppers && p.ops.upper(lowered) != lowered, path, Uppercased)
  }

  predicate Reports(strategy: Strategy, kind: Kind) {
    match kind
    case Masked => strategy.Mask? || strategy.MaskWith?
    case Hashed => strategy.Hash?
    case Nulled => strategy.Null?
    case Dropped => strategy.Drop?
    case _ => false
  }

  /**
   * The events of an object, member by member: one of the strategy's kind for a redacted member, those of
   * the steps that change an unredacted text, and for other values those inside them under a recursive policy.
   */
  lemma EventsMemberByMember(p: Policy, members: seq<Member>, m: Member, path: string)
    ensures WalkEvents(p, JObject([]), path) == []
    ensures var at := if path == "" then m.key else path + "." + m.key;
            var before, all := WalkEvents(p, JObject(members), path), WalkEvents(p, JObject(members + [m]), path);
            && (forall strategy :: Redacts(p, m.key, strategy) ==>
                  exists kind :: Reports(strategy, kind) && all == before + [Event(at, kind)])
            && (Unredacted(p, m.key) ==>
                  all == before + if m.value.JString? then TextEvents(p, m.key, m.value.text, at)
                                  else if p.redaction.recursive || p.normalization.recursive then WalkEvents(p, m.value, at) else [])
  {
    var at := ChildPath(path, m.key);
    assert (members + [m])[..|members|] == members;
    forall strategy | Redacts(p, m.key, strategy)
      ensures exists kind :: Reports(strategy, kind) && EventsOf(p, m, at) == [Event(at, kind)]
    {
      RuleForRedacts(p, m.key, strategy);
      assert Reports(strategy, KindOf(strategy));
    }
    if Unredacted(p, m.key) {
      UnredactedEvents(p, m, at);
    }
  }

  lemma UnredactedEvents(p: Policy, m: Member, at: string)
    requires Unredacted(p, m.key)
    ensures EventsOf(p, m, at) == if m.value.JString? then TextEvents(p, m.key, m.value.text, at)
                                  else if p.Deep() then WalkEvents(p, m.value, at) else []
  {
    RuleForRedacts(p, m.key, Mask);
    if m.value.JString? {
      assert WalkEvents(p, Normalize(p, m.key, m.value), at) == [];
      assert NormalEvents(p, m.key, m.value, at) == TextEvents(p, m.key, m.value.text, at);
    } else {
      assert Normalize(p, m.key, m.value) == m.value && NormalEvents(p, m.key, m.value, at) == [];
    }
  }

  /** The events of an array, item by item; only a recursive policy looks inside. */
  lemma EventsItemByItem(p: Policy, items: seq<Json>, item: Json, path: string)
    ensures WalkEvents(p, JArray([]), path) == []
    ensures WalkEvents(p, JArray(items + [item]), path) ==
            if p.redaction.recursive || p.normalization.recursive
            then WalkEvents(p, JArray(items), path) + WalkEvents(p, item, path + "[" + Decimal(|items|) + "]") else []
  {
    assert (items + [item])[..|items|] == items;
  }
}
