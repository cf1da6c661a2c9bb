/** The leak-safe totals over all sanitisation events of a run (crates/statguardian-stream/src/sanitize.rs). */
module SanitizerSummary {
  import opened Sequences
  import opened Sanitizer
  import Laws = SanitizerLaws

  function KindName(kind: Kind): string {
    match kind
    case Masked => "masked"
    case Hashed => "hashed"
    case Nulled => "nulled"
    case Dropped => "dropped"
    case Trimmed => "trimmed"
    case Lowercased => "lowercased"
    case Uppercased => "uppercased"
  }

  // ---- The field an event is counted under: the last non-empty piece of its path ----

  predicate Separator(c: char) { c == '.' || c == '[' }

  function Split(path: string): (pieces: seq<string>)
    ensures pieces != []
  {
    if path == "" then [""]
    else
      var before, c := Split(path[..|path| - 1]), path[|path| - 1];
      if Separator(c) then before + [""]
      else before[..|before| - 1] + [before[|before| - 1] + [c]]
  }

  function LastNonEmpty(pieces: seq<string>): Option<string> {
    if pieces == [] then None
    else if pieces[|pieces| - 1] != "" then Some(pieces[|pieces| - 1])
    else LastNonEmpty(pieces[..|pieces| - 1])
  }

  function LeafOf(path: string): string {
    match LastNonEmpty(Split(path))
    case Some(piece) => piece
    case None => path
  }

  // ---- Counting ----

  function Bump(counts: map<string, nat>, key: string): map<string, nat> {
    counts[key := (if key in counts then counts[key] else 0) + 1]
  }

  function Histogram(keys: seq<string>): map<string, nat> {
    if keys == [] then map[] else Bump(Histogram(keys[..|keys| - 1]), keys[|keys| - 1])
  }

  function KindNames(events: seq<Event>): seq<string> { seq(|events|, i requires 0 <= i < |events| => KindName(events[i].kind)) }

  function Leaves(events: seq<Event>): seq<string> { seq(|events|, i requires 0 <= i < |events| => LeafOf(events[i].path)) }

  datatype Totals = Totals(events: nat, byKind: map<string, nat>, byField: map<string, nat>)

  function TotalsOf(events: seq<Event>): Totals {
    Totals(|events|, Histogram(KindNames(events)), Histogram(Leaves(events)))
  }

  function Recorded(t: Totals, event: Event): Totals {
    Totals(t.events + 1, Bump(t.byKind, KindName(event.kind)), Bump(t.byField, LeafOf(event.path)))
  }

  class SanitizationSummary {
    var totalEvents: nat
    var byKind: map<string, nat>
    var byField: map<string, nat>

    constructor ()
      ensures View() == TotalsOf([])
    {
      totalEvents, byKind, byField := 0, map[], map[];
    }

    function View(): Totals
      reads this
    {
      Totals(totalEvents, byKind, byField)
    }

    method Record(event: Event)
      modifies this
      ensures View() == Recorded(old(View()), event)
    {
      totalEvents := totalEvents + 1;
      var kind := KindName(event.kind);
      byKind := byKind[kind := (if kind in byKind then byKind[kind] else 0) + 1];
      var leaf := LeafOf(event.path);
      byField := byField[leaf := (if leaf in byField then byField[leaf] else 0) + 1];
    }
  }

  /** Recording the events one by one arrives at their totals. */
  lemma RecordingAddsUp(seen: seq<Event>, event: Event)
    ensures TotalsOf(seen + [event]) == Recorded(TotalsOf(seen), event)
  {
    assert KindNames(seen + [event]) == KindNames(seen) + [KindName(event.kind)];
    assert Leaves(seen + [event]) == Leaves(seen) + [LeafOf(event.path)];
    HistogramGrows(KindNames(seen), KindName(event.kind));
    HistogramGrows(Leaves(seen), LeafOf(event.path));
  }

  lemma HistogramGrows(keys: seq<string>, key: string)
    ensures Histogram(keys + [key]) == Bump(Histogram(keys), key)
  {
  }

  /** A count is the number of times its key occurs; keys that never occur have no entry. */
  lemma {:induction false} HistogramCounts(keys: seq<string>, key: string)
    ensures key in Histogram(keys) <==> key in keys
    ensures key in keys ==> Histogram(keys)[key] == multiset(keys)[key]
    ensures key !in keys ==> multiset(keys)[key] == 0
  {
    if keys == [] {
    } else {
      var init, last := keys[..|keys| - 1], keys[|keys| - 1];
      assert keys == init + [last];
      HistogramCounts(init, key);
    }
  }

  /** Counts by field and by kind both depend only on which events occurred, not on their order. */
  lemma OrderOfEventsIsIrrelevant(a: seq<Event>, b: seq<Event>)
    requires multiset(KindNames(a)) == multiset(KindNames(b)) && multiset(Leaves(a)) == multiset(Leaves(b))
    ensures TotalsOf(a) == TotalsOf(b)
  {
    SameHistogram(KindNames(a), KindNames(b));
    SameHistogram(Leaves(a), Leaves(b));
    assert |multiset(KindNames(a))| == |a| && |multiset(KindNames(b))| == |b|;
  }

  lemma SameHistogram(a: seq<string>, b: seq<string>)
    requires multiset(a) == multiset(b)
    ensures Histogram(a) == Histogram(b)
  {
    forall key: string
      ensures key in Histogram(a) <==> key in Histogram(b)
      ensures key in Histogram(a) ==> Histogram(a)[key] == Histogram(b)[key]
    {
      HistogramCounts(a, key);
      HistogramCounts(b, key);
      assert key in a <==> key in multiset(a);
      assert key in b <==> key in multiset(b);
    }
  }

  // ---- Which fields are counted ----

  predicate Plain(key: string) { key != "" && Clean(key) }

  ghost predicate PlainKeys(v: Json)
    decreases v, 0
  {
    && (v.JObject? ==> forall m :: m in v.members ==> Plain(m.key) && PlainKeys(m.value))
    && (v.JArray? ==> forall item :: item in v.items ==> PlainKeys(item))
  }

  predicate Named(p: Policy, key: string) { RuleFor(p, key).Some? || Laws.NormalizesField(p, key) }

  /** Text added to the last piece. */
  function Extend(pieces: seq<string>, text: string): seq<string>
    requires pieces != []
  {
    pieces[..|pieces| - 1] + [pieces[|pieces| - 1] + text]
  }

  lemma ExtendTwice(pieces: seq<string>, a: string, b: string)
    requires pieces != []
    ensures Extend(Extend(pieces, a), b) == Extend(pieces, a + b)
    ensures Extend(pieces, "") == pieces
  {
    var last := pieces[|pieces| - 1];
    assert (last + a) + b == last + (a + b) && last + "" == last;
  }

  predicate Clean(key: string) { forall c :: c in key ==> !Separator(c) }

  lemma CleanInit(key: string)
    requires key != "" && Clean(key)
    ensures Clean(key[..|key| - 1]) && !Separator(key[|key| - 1])
  {
  }

  lemma {:induction false} SplitExtends(path: string, key: string)
    requires Clean(key)
    ensures Split(path + key) == Extend(Split(path), key)
  {
    if key == "" {
      assert path + key == path;
      ExtendTwice(Split(path), "", "");
    } else {
      var init, c := key[..|key| - 1], key[|key| - 1];
      CleanInit(key);
      SplitExtends(path, init);
      OneMore(path, init, c);
      assert key == init + [c];
    }
  }

  lemma OneMore(path: string, init: string, c: char)
    requires !Separator(c) && Split(path + init) == Extend(Split(path), init)
    ensures Split(path + (init + [c])) == Extend(Split(path), init + [c])
  {
    assert path + (init + [c]) == path + init + [c];
    SplitStep(path + init, c);
    ExtendTwice(Split(path), init, [c]);
  }

  lemma SplitStep(path: string, c: char)
    requires !Separator(c)
    ensures Split(path + [c]) == Extend(Split(path), [c])
  {
  }

  /** A child's path ends in its key, unless the key is empty or holds a separator. */
  lemma LeafIsTheKey(path: string, key: string)
    requires Plain(key)
    ensures LeafOf(ChildPath(path, key)) == key
  {
    if path == "" {
      SplitExtends("", key);
      assert "" + key == key;
    } else {
      var prefix := path + ".";
      assert prefix[..|prefix| - 1] == path;
      SplitExtends(prefix, key);
    }
  }

  /** Pieces hold no separators; there is no non-empty piece exactly when there is nothing but separators. */
  lemma {:induction false} PiecesAreClean(path: string)
    ensures forall k :: 0 <= k < |Split(path)| ==> forall c :: c in Split(path)[k] ==> !Separator(c)
    ensures LastNonEmpty(Split(path)).None? <==> forall c :: c in path ==> Separator(c)
  {
    if path == "" {
      assert LastNonEmpty([""]) == LastNonEmpty([""][..0]);
    } else {
      var init, c := path[..|path| - 1], path[|path| - 1];
      assert path == init + [c];
      PiecesAreClean(init);
      if Separator(c) {
        assert (Split(init) + [""])[..|Split(init)|] == Split(init);
      }
    }
  }

  lemma {:induction false} LastNonEmptyIsAPiece(pieces: seq<string>)
    ensures var last := LastNonEmpty(pieces); last.Some? ==> last.value in pieces && last.value != ""
  {
    if pieces == [] {
    } else {
      LastNonEmptyIsAPiece(pieces[..|pieces| - 1]);
    }
  }

  /** Exactly when an event is counted under its key: for plain keys, and for top-level keys of separators alone. */
  lemma LeafIsTheKeyExactly(path: string, key: string)
    ensures LeafOf(ChildPath(path, key)) == key <==> Plain(key) || (path == "" && forall c :: c in key ==> Separator(c))
  {
    var child := ChildPath(path, key);
    PiecesAreClean(child);
    LastNonEmptyIsAPiece(Split(child));
    if Plain(key) {
      LeafIsTheKey(path, key);
    }
  }

  /** Every event of a walk over plain keys is counted under a field that the policy names. */
  lemma {:induction false} OnlyNamedFieldsAreCounted(p: Policy, v: Json, path: string, e: Event)
    requires PlainKeys(v) && e in WalkEvents(p, v, path)
    ensures Named(p, LeafOf(e.path))
    decreases !v.JString?, v, 0
  {
    if v.JObject? {
      MemberEventsNamed(p, v.members, path, e);
    } else {
      ItemEventsNamed(p, v.items, path, e);
    }
  }

  lemma {:induction false} ItemEventsNamed(p: Policy, items: seq<Json>, path: string, e: Event)
    requires (forall item :: item in items ==> PlainKeys(item)) && e in ItemEvents(p, items, path)
    ensures Named(p, LeafOf(e.path))
    decreases true, items, 0
  {
    var i := |items| - 1;
    if e in ItemEvents(p, items[..i], path) {
      ItemEventsNamed(p, items[..i], path, e);
    } else {
      OnlyNamedFieldsAreCounted(p, items[i], IndexPath(path, i), e);
    }
  }

  lemma {:induction false} MemberEventsNamed(p: Policy, members: seq<Member>, path: string, e: Event)
    requires forall m :: m in members ==> Plain(m.key) && PlainKeys(m.value)
    requires e in MemberEvents(p, members, path)
    ensures Named(p, LeafOf(e.path))
    decreases true, members, 0
  {
    var init, m := members[..|members| - 1], members[|members| - 1];
    if e in MemberEvents(p, init, path) {
      MemberEventsNamed(p, init, path, e);
    } else {
      ChildEventNamed(p, m, path, e);
    }
  }

  lemma {:induction false} ChildEventNamed(p: Policy, m: Member, path: string, e: Event)
    requires Plain(m.key) && PlainKeys(m.value) && e in EventsOf(p, m, ChildPath(path, m.key))
    ensures Named(p, LeafOf(e.path))
    decreases true, m, 0
  {
    LeafIsTheKey(path, m.key);
    if RuleFor(p, m.key) == None {
      if e !in NormalEvents(p, m.key, m.value, ChildPath(path, m.key)) {
        assert Normalize(p, m.key, m.value) == m.value;
        OnlyNamedFieldsAreCounted(p, m.value, ChildPath(path, m.key), e);
      } else {
        NormalEventIsNamed(p, m.key, m.value, ChildPath(path, m.key), e);
      }
    }
  }

  lemma NormalEventIsNamed(p: Policy, key: string, v: Json, path: string, e: Event)
    requires e in NormalEvents(p, key, v, path)
    ensures e.path == path && Laws.NormalizesField(p, key)
  {
  }

  /** A key with a dot in it is counted under its last piece, a field the policy never named. */
  lemma DottedKeysAreMiscounted(ops: TextOps)
    ensures var p := Policy(RedactionPolicy([RedactionRule("a.b", Null)], false), NormalizationPolicy([], [], [], false), ops);
            var record := JObject([Member("a.b", JBool(true))]);
            TotalsOf(WalkEvents(p, record, "")).byField == map["b" := 1] && !Named(p, "b")
  {
    var p := Policy(RedactionPolicy([RedactionRule("a.b", Null)], false), NormalizationPolicy([], [], [], false), ops);
    var m := Member("a.b", JBool(true));
    var init: seq<Member> := [m][..0];
    assert RuleFor(p, "a.b") == Some(Null);
    assert MemberEvents(p, init, "") == [];
    var events := MemberEvents(p, [m], "");
    assert events == EventsOf(p, m, "a.b") == [Event("a.b", Nulled)];
    DottedLeaf();
    assert Leaves(events) == ["b"];
    HistogramGrows([], "b");
    assert [] + ["b"] == ["b"];
    assert !Named(p, "b") by {
      assert FirstRule(p.redaction.rules, "b") == None;
    }
  }

  lemma DottedLeaf()
    ensures LeafOf("a.b") == "b"
  {
  }

  /** A single event counts once, under the name of its kind and under its leaf. */
  lemma OneEventIsCounted(e: Event, name: string)
    requires name == match e.kind
                     case Masked => "masked"
                     case Hashed => "hashed"
                     case Nulled => "nulled"
                     case Dropped => "dropped"
                     case Trimmed => "trimmed"
                     case Lowercased => "lowercased"
                     case Uppercased => "uppercased"
    ensures TotalsOf([e]) == Totals(1, map[name := 1], map[LeafOf(e.path) := 1])
  {
    assert KindNames([e]) == [name] && Leaves([e]) == [LeafOf(e.path)];
    OneKey(name);
    OneKey(LeafOf(e.path));
  }

  lemma OneKey(key: string)
    ensures Histogram([key]) == map[key := 1]
  {
    assert [key][..0] == [];
  }
}
