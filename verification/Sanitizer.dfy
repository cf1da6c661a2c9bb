/** The sanitiser's walk over a JSON record (crates/statguardian-stream/src/sanitize.rs). */
module Sanitizer {
  import opened Sequences
  import Fnv

  /** A JSON value.  The members of an object are listed in the order the map iterates over them. */
  datatype Json =
    | JNull
    | JBool(flag: bool)
    | JNumber(digits: string)
    | JString(text: string)
    | JArray(items: seq<Json>)
    | JObject(members: seq<Member>)

  datatype Member = Member(key: string, value: Json)

  datatype Strategy = Mask | MaskWith(token: string) | Hash | Null | Drop

  datatype RedactionRule = RedactionRule(field: string, strategy: Strategy)

  datatype RedactionPolicy = RedactionPolicy(rules: seq<RedactionRule>, recursive: bool)

  datatype NormalizationPolicy = NormalizationPolicy(
    trim: seq<string>,
    lowercase: seq<string>,
    uppercase: seq<string>,
    recursive: bool)

  /** The text operations of the host language and of the JSON printer. */
  datatype TextOps = TextOps(
    trim: string -> string,
    lower: string -> string,
    upper: string -> string,
    utf8: string -> seq<Byte>,
    render: Json -> string)

  datatype Kind = Masked | Hashed | Nulled | Dropped | Trimmed | Lowercased | Uppercased

  datatype Event = Event(path: string, kind: Kind)

  datatype Policy = Policy(redaction: RedactionPolicy, normalization: NormalizationPolicy, ops: TextOps) {
    predicate IsNoop() {
      redaction.rules == [] && normalization.trim == [] && normalization.lowercase == [] && normalization.uppercase == []
    }

    /** Either flag alone makes both redaction and normalisation reach every depth. */
    predicate Deep() { redaction.recursive || normalization.recursive }
  }

  /** The first rule that names the key decides. */
  function FirstRule(rules: seq<RedactionRule>, key: string): Option<Strategy> {
    if rules == [] then None
    else if rules[0].field == key then Some(rules[0].strategy)
    else FirstRule(rules[1..], key)
  }

  function RuleFor(p: Policy, key: string): Option<Strategy> { FirstRule(p.redaction.rules, key) }

  // ---- Specification: what becomes of a value, and which events say so ----

  function HashText(ops: TextOps, v: Json): string {
    Fnv.DigestText(ops.utf8(if v.JString? then v.text else ops.render(v)))
  }

  /** The value that takes the place of a redacted one; nothing for a dropped field. */
  function Replacement(p: Policy, strategy: Strategy, v: Json): Option<Json> {
    match strategy
    case Drop => None
    case Mask => Some(JString("[REDACTED]"))
    case MaskWith(token) => Some(JString(token))
    case Null => Some(JNull)
    case Hash => Some(JString(HashText(p.ops, v)))
  }

  function KindOf(strategy: Strategy): Kind {
    match strategy
    case Drop => Dropped
    case Mask => Masked
    case MaskWith(_) => Masked
    case Null => Nulled
    case Hash => Hashed
  }

  function Apply(op: string -> string, fields: seq<string>, key: string, text: string): string {
    if key in fields then op(text) else text
  }

  function TrimmedText(p: Policy, key: string, text: string): string { Apply(p.ops.trim, p.normalization.trim, key, text) }

  function LoweredText(p: Policy, key: string, text: string): string {
    Apply(p.ops.lower, p.normalization.lowercase, key, TrimmedText(p, key, text))
  }

  /** Trimming comes first, then lower case, then upper case. */
  function NormalText(p: Policy, key: string, text: string): string {
    Apply(p.ops.upper, p.normalization.uppercase, key, LoweredText(p, key, text))
  }

  function Normalize(p: Policy, key: string, v: Json): Json {
    if v.JString? then JString(NormalText(p, key, v.text)) else v
  }

  function Change(before: string, after: string, path: string, kind: Kind): seq<Event> {
    if before == after then [] else [Event(path, kind)]
  }

  function NormalEvents(p: Policy, key: string, v: Json, path: string): seq<Event> {
    if !v.JString? then []
    else
      var trimmed, lowered := TrimmedText(p, key, v.text), LoweredText(p, key, v.text);
      Change(v.text, trimmed, path, Trimmed) + Change(trimmed, lowered, path, Lowercased)
      + Change(lowered, NormalText(p, key, v.text), path, Uppercased)
  }

  /** What the walk makes of a value. */
  function WalkValue(p: Policy, v: Json): Json
    decreases !v.JString?, v, 0
  {
    if v.JObject? then JObject(WalkMembers(p, v.members))
    else if v.JArray? && p.Deep() then JArray(WalkItems(p, v.items))
    else v
  }

  function WalkItems(p: Policy, items: seq<Json>): (r: seq<Json>)
    ensures |r| == |items|
    decreases true, items, 0
  {
    if items == [] then [] else WalkItems(p, items[..|items| - 1]) + [WalkValue(p, items[|items| - 1])]
  }

  function WalkMembers(p: Policy, members: seq<Member>): seq<Member>
    decreases true, members, 0
  {
    if members == [] then [] else WalkMembers(p, members[..|members| - 1]) + WalkMember(p, members[|members| - 1])
  }

  /** The member with its new value, or nothing when it is dropped. */
  function WalkMember(p: Policy, m: Member): seq<Member>
    decreases true, m, 1
  {
    match NewValue(p, m)
    case None => []
    case Some(v) => [Member(m.key, v)]
  }

  function NewValue(p: Policy, m: Member): Option<Json>
    decreases true, m, 0
  {
    match RuleFor(p, m.key)
    case Some(strategy) => Replacement(p, strategy, m.value)
    case None =>
      var v := Normalize(p, m.key, m.value);
      Some(if p.Deep() then WalkValue(p, v) else v)
  }

  function ChildPath(path: string, key: string): string { if path == "" then key else path + "." + key }

  function IndexPath(path: string, i: nat): string { path + "[" + Decimal(i) + "]" }

  function WalkEvents(p: Policy, v: Json, path: string): seq<Event>
    decreases !v.JString?, v, 0
  {
    if v.JObject? then MemberEvents(p, v.members, path)
    else if v.JArray? && p.Deep() then ItemEvents(p, v.items, path)
    else []
  }

  function ItemEvents(p: Policy, items: seq<Json>, path: string): seq<Event>
    decreases true, items, 0
  {
    if items == [] then []
    else
      var i := |items| - 1;
      ItemEvents(p, items[..i], path) + WalkEvents(p, items[i], IndexPath(path, i))
  }

  function MemberEvents(p: Policy, members: seq<Member>, path: string): seq<Event>
    decreases true, members, 0
  {
    if members == [] then []
    else
      var m := members[|members| - 1];
      MemberEvents(p, members[..|members| - 1], path) + EventsOf(p, m, ChildPath(path, m.key))
  }

  function EventsOf(p: Policy, m: Member, path: string): seq<Event>
    decreases true, m, 0
  {
    match RuleFor(p, m.key)
    case Some(strategy) => [Event(path, KindOf(strategy))]
    case None =>
      var v := Normalize(p, m.key, m.value);
      NormalEvents(p, m.key, m.value, path) + (if p.Deep() then WalkEvents(p, v, path) else [])
  }

  // ---- The walk, which rewrites the value and pushes events ----

  /** A map loses the member with the key. */
  function Remove(members: seq<Member>, key: string): seq<Member> {
    if members == [] then []
    else Remove(members[..|members| - 1], key) + (if members[|members| - 1].key == key then [] else [members[|members| - 1]])
  }

  method NormalizeValue(p: Policy, key: string, value: Json, path: string, before: seq<Event>)
    returns (out: Json, events: seq<Event>)
    ensures out == Normalize(p, key, value)
    ensures events == before + NormalEvents(p, key, value, path)
  {
    out, events := value, before;
    if !value.JString? { return; }
    var s := value.text;
    if key in p.normalization.trim {
      var trimmed := p.ops.trim(s);
      if trimmed != s {
        s := trimmed;
        events := events + [Event(path, Trimmed)];
      }
    }
    if key in p.normalization.lowercase {
      var lower := p.ops.lower(s);
      if lower != s {
        s := lower;
        events := events + [Event(path, Lowercased)];
      }
    }
    if key in p.normalization.uppercase {
      var upper := p.ops.upper(s);
      if upper != s {
        s := upper;
        events := events + [Event(path, Uppercased)];
      }
    }
    out := JString(s);
  }

  method Walk(p: Policy, value: Json, path: string, before: seq<Event>) returns (out: Json, events: seq<Event>)
    ensures out == WalkValue(p, value)
    ensures events == before + WalkEvents(p, value, path)
    decreases !value.JString?, value, 0
  {
    out, events := value, before;
    if value.JObject? {
      var members: seq<Member>;
      members, events := WalkObject(p, value.members, path, before);
      out := JObject(members);
    } else if value.JArray? && p.Deep() {
      var items := [];
      for i := 0 to |value.items|
        invariant items == WalkItems(p, value.items[..i])
        invariant events == before + ItemEvents(p, value.items[..i], path)
      {
        var item;
        item, events := Walk(p, value.items[i], IndexPath(path, i), events);
        items := items + [item];
        assert value.items[..i + 1][..i] == value.items[..i];
      }
      assert value.items[..|value.items|] == value.items;
      out := JArray(items);
    }
  }

  /** The members as the first loop leaves them: dropped ones are still there, untouched. */
  function Marked(p: Policy, members: seq<Member>): seq<Member> {
    if members == [] then [] else Marked(p, members[..|members| - 1]) + [MarkedMember(p, members[|members| - 1])]
  }

  function MarkedMember(p: Policy, m: Member): Member {
    match NewValue(p, m)
    case None => m
    case Some(v) => Member(m.key, v)
  }

  function DropKeys(p: Policy, members: seq<Member>): seq<string> {
    if members == [] then []
    else
      var m := members[|members| - 1];
      DropKeys(p, members[..|members| - 1]) + (if RuleFor(p, m.key) == Some(Drop) then [m.key] else [])
  }

  function RemoveAll(members: seq<Member>, keys: seq<string>): seq<Member> {
    if keys == [] then members else Remove(RemoveAll(members, keys[..|keys| - 1]), keys[|keys| - 1])
  }

  method RemoveKeys(members: seq<Member>, keys: seq<string>) returns (left: seq<Member>)
    ensures left == RemoveAll(members, keys)
  {
    left := members;
    for i := 0 to |keys|
      invariant left == RemoveAll(members, keys[..i])
    {
      assert keys[..i + 1][..i] == keys[..i];
      left := Remove(left, keys[i]);
    }
    assert keys[..|keys|] == keys;
  }

  method WalkObject(p: Policy, members: seq<Member>, path: string, before: seq<Event>)
    returns (out: seq<Member>, events: seq<Event>)
    ensures out == WalkMembers(p, members)
    ensures events == before + MemberEvents(p, members, path)
    decreases true, members, 1
  {
    var dropKeys := [];
    out, events := [], before;
    for i := 0 to |members|
      invariant out == Marked(p, members[..i])
      invariant dropKeys == DropKeys(p, members[..i])
      invariant events == before + MemberEvents(p, members[..i], path)
    {
      var m := members[i];
      assert members[..i + 1][..i] == members[..i];
      var dropped, v;
      dropped, v, events := WalkChild(p, m, ChildPath(path, m.key), events);
      Regroup(before, MemberEvents(p, members[..i], path), EventsOf(p, m, ChildPath(path, m.key)));
      if dropped { dropKeys := dropKeys + [m.key]; }
      out := out + [Member(m.key, v)];
    }
    assert members[..|members|] == members;
    out := RemoveKeys(out, dropKeys);
    RemovingDropsIsSkippingThem(p, members);
  }

  method WalkChild(p: Policy, m: Member, path: string, before: seq<Event>)
    returns (dropped: bool, v: Json, events: seq<Event>)
    ensures dropped == (RuleFor(p, m.key) == Some(Drop))
    ensures Member(m.key, v) == MarkedMember(p, m)
    ensures events == before + EventsOf(p, m, path)
    decreases true, m, 1
  {
    dropped, v := false, m.value;
    match RuleFor(p, m.key) {
      case Some(strategy) =>
        match strategy {
          case Drop => dropped := true;
          case Mask => v := JString("[REDACTED]");
          case MaskWith(token) => v := JString(token);
          case Null => v := JNull;
          case Hash => v := JString(HashText(p.ops, m.value));
        }
        events := before + [Event(path, KindOf(strategy))];
      case None =>
        v, events := NormalizeValue(p, m.key, v, path, before);
        if p.Deep() {
          v, events := Walk(p, v, path, events);
        }
    }
  }

  /** A sanitised copy and one event per change; a policy without rules takes the short cut. */
  method Sanitize(p: Policy, value: Json) returns (out: Json, events: seq<Event>)
    ensures out == WalkValue(p, value) && events == WalkEvents(p, value, "")
  {
    out, events := value, [];
    if p.IsNoop() {
      NoopWalkChangesNothing(p, value, "");
    } else {
      out, events := Walk(p, value, "", []);
    }
  }

  // ---- Dropping afterwards is skipping ----

  lemma {:induction false} RemoveAllMember(members: seq<Member>, m: Member, keys: seq<string>)
    ensures RemoveAll(members + [m], keys) == RemoveAll(members, keys) + (if m.key in keys then [] else [m])
  {
    if keys != [] {
      var init, last := keys[..|keys| - 1], keys[|keys| - 1];
      RemoveAllMember(members, m, init);
      assert keys == init + [last];
      assert m.key in keys <==> m.key in init || m.key == last;
      RemoveMember(RemoveAll(members, init), m, last);
      var left := RemoveAll(members, init);
      assert left + [] == left && Remove(left, last) + [] == Remove(left, last);
    } else {
      assert m.key !in keys;
    }
  }

  lemma RemoveMember(members: seq<Member>, m: Member, key: string)
    ensures Remove(members + [m], key) == Remove(members, key) + (if m.key == key then [] else [m])
  {
  }

  lemma {:induction false} RemoveAllOfNothing(keys: seq<string>)
    ensures RemoveAll([], keys) == []
  {
    if keys == [] {
    } else {
      RemoveAllOfNothing(keys[..|keys| - 1]);
    }
  }

  lemma {:induction false} DropKeysMember(p: Policy, members: seq<Member>, key: string)
    ensures key in DropKeys(p, members) <==> RuleFor(p, key) == Some(Drop) && exists m :: m in members && m.key == key
  {
    if members == [] {
    } else {
      var init, last := members[..|members| - 1], members[|members| - 1];
      assert members == init + [last];
      DropKeysMember(p, init, key);
    }
  }

  lemma {:induction false} RemoveAllSkips(p: Policy, members: seq<Member>, keys: seq<string>)
    requires forall m :: m in members ==> (m.key in keys <==> RuleFor(p, m.key) == Some(Drop))
    ensures RemoveAll(Marked(p, members), keys) == WalkMembers(p, members)
  {
    if members == [] {
      RemoveAllOfNothing(keys);
    } else {
      var init, last := members[..|members| - 1], members[|members| - 1];
      RemoveAllSkips(p, init, keys);
      RemoveAllMember(Marked(p, init), MarkedMember(p, last), keys);
    }
  }

  lemma RemovingDropsIsSkippingThem(p: Policy, members: seq<Member>)
    ensures RemoveAll(Marked(p, members), DropKeys(p, members)) == WalkMembers(p, members)
  {
    forall m | m in members
      ensures m.key in DropKeys(p, members) <==> RuleFor(p, m.key) == Some(Drop)
    {
      DropKeysMember(p, members, m.key);
    }
    RemoveAllSkips(p, members, DropKeys(p, members));
  }

  // ---- The short cut ----

  lemma {:induction false} NoopWalkChangesNothing(p: Policy, v: Json, path: string)
    requires p.IsNoop()
    ensures WalkValue(p, v) == v && WalkEvents(p, v, path) == []
    decreases v, 0
  {
    match v
    case JObject(members) => NoopMembers(p, members, path);
    case JArray(items) => NoopItems(p, items, path);
    case _ =>
  }

  lemma {:induction false} NoopItems(p: Policy, items: seq<Json>, path: string)
    requires p.IsNoop()
    ensures WalkItems(p, items) == items && ItemEvents(p, items, path) == []
    decreases items, 0
  {
    if items == [] {
    } else {
      NoopItems(p, items[..|items| - 1], path);
      NoopWalkChangesNothing(p, items[|items| - 1], IndexPath(path, |items| - 1));
    }
  }

  lemma {:induction false} NoopMembers(p: Policy, members: seq<Member>, path: string)
    requires p.IsNoop()
    ensures WalkMembers(p, members) == members && MemberEvents(p, members, path) == []
    decreases members, 0
  {
    if members == [] {
    } else {
      var init, m := members[..|members| - 1], members[|members| - 1];
      assert members == init + [m];
      NoopMembers(p, init, path);
      NoopMember(p, m, ChildPath(path, m.key));
    }
  }

  lemma {:induction false} NoopMember(p: Policy, m: Member, path: string)
    requires p.IsNoop()
    ensures WalkMember(p, m) == [m] && EventsOf(p, m, path) == []
    decreases m, 0
  {
    assert RuleFor(p, m.key) == None;
    assert Normalize(p, m.key, m.value) == m.value;
    assert NormalEvents(p, m.key, m.value, path) == [];
    NoopWalkChangesNothing(p, m.value, path);
  }
}
