/** What the sanitiser promises about every record: what it hides, what it keeps and what its events say. */
module SanitizerLaws {
  import opened Sequences
  import opened Sanitizer
  import Fnv

  // ---- Noninterference ----

  /** The two values agree wherever the policy shows them; hashed values agree in their digests. */
  ghost predicate LowEqual(p: Policy, a: Json, b: Json)
    decreases a, 0
  {
    if a.JObject? && b.JObject? then
      |a.members| == |b.members|
      && forall i :: 0 <= i < |a.members| ==> LowEqualMember(p, a.members[i], b.members[i])
    else if a.JArray? && b.JArray? && p.Deep() then
      |a.items| == |b.items| && forall i :: 0 <= i < |a.items| ==> LowEqual(p, a.items[i], b.items[i])
    else a == b
  }

  ghost predicate LowEqualMember(p: Policy, m: Member, n: Member)
    decreases m, 1
  {
    && m.key == n.key
    && match RuleFor(p, m.key)
       case Some(Hash) => HashText(p.ops, m.value) == HashText(p.ops, n.value)
       case Some(_) => true
       case None => if p.Deep() then LowEqual(p, m.value, n.value) else m.value == n.value
  }

  /** Records that differ only in redacted values sanitise alike and report alike. */
  lemma {:induction false} Noninterference(p: Policy, a: Json, b: Json, path: string)
    requires LowEqual(p, a, b)
    ensures WalkValue(p, a) == WalkValue(p, b)
    ensures WalkEvents(p, a, path) == WalkEvents(p, b, path)
    decreases a, 0
  {
    if a.JObject? && b.JObject? {
      MembersAlike(p, a.members, b.members, path);
    } else if a.JArray? && b.JArray? && p.Deep() {
      ItemsAlike(p, a.items, b.items, path);
    }
  }

  lemma {:induction false} ItemsAlike(p: Policy, xs: seq<Json>, ys: seq<Json>, path: string)
    requires |xs| == |ys| && forall i :: 0 <= i < |xs| ==> LowEqual(p, xs[i], ys[i])
    ensures WalkItems(p, xs) == WalkItems(p, ys) && ItemEvents(p, xs, path) == ItemEvents(p, ys, path)
    decreases xs, 0
  {
    if xs == [] {
    } else {
      var i := |xs| - 1;
      ItemsAlike(p, xs[..i], ys[..i], path);
      Noninterference(p, xs[i], ys[i], IndexPath(path, i));
    }
  }

  lemma {:induction false} MembersAlike(p: Policy, xs: seq<Member>, ys: seq<Member>, path: string)
    requires |xs| == |ys| && forall i :: 0 <= i < |xs| ==> LowEqualMember(p, xs[i], ys[i])
    ensures WalkMembers(p, xs) == WalkMembers(p, ys) && MemberEvents(p, xs, path) == MemberEvents(p, ys, path)
    decreases xs, 0
  {
    if xs == [] {
    } else {
      var i := |xs| - 1;
      MembersAlike(p, xs[..i], ys[..i], path);
      MemberAlike(p, xs[i], ys[i], ChildPath(path, xs[i].key));
    }
  }

  lemma {:induction false} MemberAlike(p: Policy, m: Member, n: Member, path: string)
    requires LowEqualMember(p, m, n)
    ensures WalkMember(p, m) == WalkMember(p, n) && EventsOf(p, m, path) == EventsOf(p, n, path)
    decreases m, 1
  {
    if RuleFor(p, m.key) == None && p.Deep() {
      Noninterference(p, m.value, n.value, path);
      NormalizeTouchesOnlyText(p, m.key, m.value, n.value);
    }
  }

  lemma NormalizeTouchesOnlyText(p: Policy, key: string, a: Json, b: Json)
    requires LowEqual(p, a, b)
    ensures a.JString? == b.JString? && (a.JString? ==> a == b)
  {
  }

  // ---- Every path through a record ----

  datatype PathStep = Key(key: string) | Index(i: nat)

  /** The value of a key; a map holds each key once. */
  function Lookup(members: seq<Member>, key: string): Option<Json> {
    if members == [] then None
    else
      var m := members[|members| - 1];
      if m.key == key then Some(m.value) else Lookup(members[..|members| - 1], key)
  }

  function Get(v: Json, step: PathStep): Option<Json> {
    match step
    case Key(key) => if v.JObject? then Lookup(v.members, key) else None
    case Index(i) => if v.JArray? && i < |v.items| then Some(v.items[i]) else None
  }

  function Find(v: Json, path: seq<PathStep>): Option<Json>
    decreases |path|
  {
    if path == [] then Some(v)
    else
      match Get(v, path[0])
      case None => None
      case Some(child) => Find(child, path[1..])
  }

  predicate Ruled(p: Policy, step: PathStep) { step.Key? && RuleFor(p, step.key).Some? }

  /** What the policy makes of the value a step leads to. */
  function AtStep(p: Policy, step: PathStep, v: Json): Option<Json> {
    match step
    case Key(key) => NewValue(p, Member(key, v))
    case Index(_) => Some(if p.Deep() then WalkValue(p, v) else v)
  }

  function AtLast(p: Policy, step: PathStep, found: Option<Json>): Option<Json> {
    match found
    case None => None
    case Some(v) => AtStep(p, step, v)
  }

  lemma {:induction false} LookupWalked(p: Policy, members: seq<Member>, key: string)
    ensures Lookup(WalkMembers(p, members), key) == AtLast(p, Key(key), Lookup(members, key))
  {
    if members == [] {
    } else {
      var init, m := members[..|members| - 1], members[|members| - 1];
      LookupWalked(p, init, key);
      LookupLast(WalkMembers(p, init), m.key, NewValue(p, m), key);
    }
  }

  lemma LookupLast(members: seq<Member>, last: string, v: Option<Json>, key: string)
    ensures var all := members + (if v.Some? then [Member(last, v.value)] else []);
            Lookup(all, key) == if v.Some? && last == key then v else Lookup(members, key)
  {
    if v.Some? {
      assert (members + [Member(last, v.value)])[..|members|] == members;
    } else {
      assert members + [] == members;
    }
  }

  lemma {:induction false} ItemWalked(p: Policy, items: seq<Json>, i: nat)
    requires i < |items|
    ensures WalkItems(p, items)[i] == WalkValue(p, items[i])
  {
    if i == |items| - 1 {
    } else {
      ItemWalked(p, items[..|items| - 1], i);
    }
  }

  lemma GetWalked(p: Policy, v: Json, step: PathStep)
    ensures Get(WalkValue(p, v), step) == AtLast(p, step, Get(v, step))
  {
    if step.Key? && v.JObject? {
      LookupWalked(p, v.members, step.key);
    }
    if step.Index? && v.JArray? && p.Deep() && step.i < |v.items| {
      ItemWalked(p, v.items, step.i);
    }
  }

  /** No key before the last step is redacted. */
  ghost predicate Clean(p: Policy, path: seq<PathStep>) { forall i :: 0 <= i < |path| - 1 ==> !Ruled(p, path[i]) }

  lemma CleanTail(p: Policy, path: seq<PathStep>)
    requires |path| > 1
    ensures Clean(p, path) <==> !Ruled(p, path[0]) && Clean(p, path[1..])
  {
  }

  /**
   * What every path of the sanitised record holds: nothing beyond a redacted key; otherwise the
   * value the path had before, redacted, normalised or walked as its last step asks.
   */
  lemma {:induction false} WhatAPathHolds(p: Policy, v: Json, path: seq<PathStep>)
    requires path != [] && (p.Deep() || |path| == 1)
    ensures Find(WalkValue(p, v), path) == if Clean(p, path) then AtLast(p, path[|path| - 1], Find(v, path)) else None
    decreases |path|
  {
    var step, rest := path[0], path[1..];
    GetWalked(p, v, step);
    if rest == [] {
      FindOne(v, path);
      FindOne(WalkValue(p, v), path);
    } else {
      CleanTail(p, path);
      assert path[|path| - 1] == rest[|rest| - 1];
      if Get(v, step).Some? {
        var child := Get(v, step).value;
        if Ruled(p, step) {
          NothingBelowARedaction(p, step, child, rest);
        } else {
          WhatAPathHolds(p, Normalized(p, step, child), rest);
          NothingInsideText(p, step, child, rest);
        }
      }
    }
  }

  function Normalized(p: Policy, step: PathStep, v: Json): Json {
    match step
    case Key(key) => Normalize(p, key, v)
    case Index(_) => v
  }

  lemma NothingInsideText(p: Policy, step: PathStep, v: Json, rest: seq<PathStep>)
    requires rest != []
    ensures Find(Normalized(p, step, v), rest) == Find(v, rest)
    ensures p.Deep() && !Ruled(p, step) ==> AtStep(p, step, v) == Some(WalkValue(p, Normalized(p, step, v)))
  {
  }

  lemma NothingBelowARedaction(p: Policy, step: PathStep, v: Json, rest: seq<PathStep>)
    requires rest != [] && Ruled(p, step)
    ensures AtStep(p, step, v).Some? ==> Find(AtStep(p, step, v).value, rest) == None
  {
  }

  lemma FindOne(v: Json, path: seq<PathStep>)
    requires |path| == 1
    ensures Find(v, path) == Get(v, path[0])
  {
  }

  // ---- Consequences of the path theorem ----

  /** What a strategy may leave behind, whatever the value was. */
  predicate Shows(strategy: Strategy, v: Json) {
    match strategy
    case Drop => false
    case Mask => v == JString("[REDACTED]")
    case MaskWith(token) => v == JString(token)
    case Null => v == JNull
    case Hash => v.JString? && |v.text| == 16 && forall c :: c in v.text ==> Fnv.IsHexDigit(c)
  }

  /** A redacted key is redacted wherever it occurs in the output. */
  lemma RedactedEverywhere(p: Policy, v: Json, path: seq<PathStep>, key: string)
    requires p.Deep() || path == []
    requires RuleFor(p, key).Some?
    ensures var found := Find(WalkValue(p, v), path + [Key(key)]);
            found.Some? ==> Shows(RuleFor(p, key).value, found.value)
  {
    WhatAPathHolds(p, v, path + [Key(key)]);
    var found := Find(v, path + [Key(key)]);
    if found.Some? && RuleFor(p, key) == Some(Hash) {
      DigestHasSixteenDigits(p, found.value);
    }
  }

  lemma DigestHasSixteenDigits(p: Policy, v: Json)
    ensures |HashText(p.ops, v)| == 16 && forall c :: c in HashText(p.ops, v) ==> Fnv.IsHexDigit(c)
  {
    Fnv.HexIsHexadecimal(Fnv.Digest(Fnv.OFFSET_BASIS, p.ops.utf8(if v.JString? then v.text else p.ops.render(v))), 16);
  }

  predicate Leaf(v: Json) { !v.JObject? && !v.JArray? }

  predicate NormalizesField(p: Policy, key: string) {
    key in p.normalization.trim || key in p.normalization.lowercase || key in p.normalization.uppercase
  }

  /** A path is there before and after, and a leaf off every named field keeps its value. */
  lemma UnnamedFieldsAreKept(p: Policy, v: Json, path: seq<PathStep>)
    requires path != [] && (p.Deep() || |path| == 1)
    requires Clean(p, path) && !Ruled(p, path[|path| - 1])
    requires path[|path| - 1].Key? ==> !NormalizesField(p, path[|path| - 1].key)
    ensures Find(WalkValue(p, v), path).Some? == Find(v, path).Some?
    ensures Find(v, path).Some? && Leaf(Find(v, path).value) ==> Find(WalkValue(p, v), path) == Find(v, path)
  {
    WhatAPathHolds(p, v, path);
    if Find(v, path).Some? {
      UnnamedStep(p, path[|path| - 1], Find(v, path).value);
    }
  }

  lemma UnnamedStep(p: Policy, step: PathStep, v: Json)
    requires !Ruled(p, step) && (step.Key? ==> !NormalizesField(p, step.key))
    ensures AtStep(p, step, v).Some? && (Leaf(v) ==> AtStep(p, step, v) == Some(v))
  {
    if step.Key? && v.JString? {
      assert NormalText(p, step.key, v.text) == v.text;
    }
    assert Normalized(p, step, v) == v;
    assert Leaf(v) ==> WalkValue(p, v) == v;
    assert AtStep(p, step, v) == Some(if p.Deep() then WalkValue(p, v) else v);
  }

  /** Without a recursive flag only the fields of the record itself are looked at. */
  lemma ShallowPoliciesStopAtTheTop(p: Policy, v: Json, path: seq<PathStep>)
    requires !p.Deep() && |path| > 1
    ensures Find(WalkValue(p, v), path) == if Ruled(p, path[0]) then None else Find(v, path)
  {
    GetWalked(p, v, path[0]);
    if Get(v, path[0]).Some? {
      var child := Get(v, path[0]).value;
      if Ruled(p, path[0]) {
        NothingBelowARedaction(p, path[0], child, path[1..]);
      } else {
        NothingInsideText(p, path[0], child, path[1..]);
      }
    }
  }

  // ---- Events ----

  /** Nothing changes without an event. */
  lemma {:induction false} NoSilentChange(p: Policy, v: Json, path: string)
    requires WalkEvents(p, v, path) == []
    ensures WalkValue(p, v) == v
    decreases v, 0
  {
    if v.JObject? {
      NoSilentMembers(p, v.members, path);
    } else if v.JArray? && p.Deep() {
      NoSilentItems(p, v.items, path);
    }
  }

  lemma BothEmpty(a: seq<Event>, b: seq<Event>)
    requires a + b == []
    ensures a == [] && b == []
  {
  }

  lemma {:induction false} NoSilentItems(p: Policy, items: seq<Json>, path: string)
    requires ItemEvents(p, items, path) == []
    ensures WalkItems(p, items) == items
    decreases items, 0
  {
    if items == [] {
    } else {
      var i := |items| - 1;
      BothEmpty(ItemEvents(p, items[..i], path), WalkEvents(p, items[i], IndexPath(path, i)));
      NoSilentItems(p, items[..i], path);
      NoSilentChange(p, items[i], IndexPath(path, i));
    }
  }

  lemma {:induction false} NoSilentMembers(p: Policy, members: seq<Member>, path: string)
    requires MemberEvents(p, members, path) == []
    ensures WalkMembers(p, members) == members
    decreases members, 0
  {
    if members == [] {
    } else {
      var init, m := members[..|members| - 1], members[|members| - 1];
      BothEmpty(MemberEvents(p, init, path), EventsOf(p, m, ChildPath(path, m.key)));
      NoSilentMembers(p, init, path);
      NoSilentMember(p, m, ChildPath(path, m.key));
      assert members == init + [m];
    }
  }

  lemma {:induction false} NoSilentMember(p: Policy, m: Member, path: string)
    requires EventsOf(p, m, path) == []
    ensures WalkMember(p, m) == [m]
    decreases m, 0
  {
    NormalEventsTell(p, m.key, m.value, path);
    if p.Deep() {
      NoSilentChange(p, m.value, path);
    }
  }

  lemma NormalEventsTell(p: Policy, key: string, v: Json, path: string)
    ensures NormalEvents(p, key, v, path) == [] ==> Normalize(p, key, v) == v
  {
  }

  // ---- Sanitising what is already sanitised ----

  ghost predicate Settles(p: Policy) {
    && (forall key :: RuleFor(p, key) != Some(Hash))
    && (forall key, text :: NormalText(p, key, NormalText(p, key, text)) == NormalText(p, key, text))
  }

  /** Without hashing, and with normal forms that stay normal, sanitising again changes nothing. */
  lemma {:induction false} SanitizingTwice(p: Policy, v: Json)
    requires Settles(p)
    ensures WalkValue(p, WalkValue(p, v)) == WalkValue(p, v)
    decreases !v.JString?, v, 0
  {
    if v.JObject? {
      MembersTwice(p, v.members);
    } else if v.JArray? && p.Deep() {
      ItemsTwice(p, v.items);
    }
  }

  lemma {:induction false} ItemsTwice(p: Policy, items: seq<Json>)
    requires Settles(p)
    ensures WalkItems(p, WalkItems(p, items)) == WalkItems(p, items)
    decreases true, items, 0
  {
    if items == [] {
    } else {
      var init, last := items[..|items| - 1], items[|items| - 1];
      ItemsTwice(p, init);
      SanitizingTwice(p, last);
      assert WalkItems(p, items)[..|items| - 1] == WalkItems(p, init);
    }
  }

  lemma {:induction false} MembersTwice(p: Policy, members: seq<Member>)
    requires Settles(p)
    ensures WalkMembers(p, WalkMembers(p, members)) == WalkMembers(p, members)
    decreases true, members, 0
  {
    if members == [] {
    } else {
      var init, m := members[..|members| - 1], members[|members| - 1];
      MembersTwice(p, init);
      MemberTwice(p, m);
      var walked := WalkMembers(p, init);
      if NewValue(p, m).Some? {
        var n := Member(m.key, NewValue(p, m).value);
        assert (walked + [n])[..|walked|] == walked;
      } else {
        assert walked + [] == walked;
      }
    }
  }

  lemma {:induction false} MemberTwice(p: Policy, m: Member)
    requires Settles(p)
    ensures NewValue(p, m).Some? ==> NewValue(p, Member(m.key, NewValue(p, m).value)) == NewValue(p, m)
    decreases true, m, 0
  {
    if RuleFor(p, m.key) == None {
      var v := Normalize(p, m.key, m.value);
      assert Normalize(p, m.key, v) == v;
      if p.Deep() {
        SanitizingTwice(p, v);
      }
    }
  }
}
