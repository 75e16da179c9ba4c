/**
  What the search-term compiler promises, stated over `Compile` for every
  term shape: the single-criterion rules, the note-type rule, the note-from
  rule and its kind list, the actor-type rule and what its five criteria
  select, the keys no rule claims, and where the handler throws.
*/
module SearchTermProperties {
  import opened Optional
  import opened PhpStrings
  import opened Criteria
  import opened SearchExpression

  /** The criteria already in an accumulator that can be appended to. */
  function Prior(acc: Acc): seq<Pred> {
    if acc.List? then acc.ps else []
  }

  /** Appending to an accumulator: a single expression cannot take more. */
  lemma AppendShape(acc: Acc, ps: seq<Pred>)
    ensures AppendAll(acc, ps) == if acc.Single? then None else Some(List(Prior(acc) + ps))
  {
    if acc.Absent? {
      assert [] + ps == ps;
    }
  }

  /** A term `key:v...`: `v` is the text up to a second colon, if any. */
  predicate KeyValueTerm(term: string, key: string, v: string, rest: string) {
    && term == key + ":" + v + rest
    && ':' !in key && ':' !in v
    && (rest == [] || rest[0] == ':')
  }

  lemma KeyAndValue(term: string, key: string, v: string, rest: string)
    requires KeyValueTerm(term, key, v, rest)
    ensures ':' in term && TermKey(term) == key && TermValue(term) == v
    ensures |Explode(term, ':')| >= 2
  {
    SecondPiece(key, v, rest, ':');
    assert term == key + [':'] + v + rest;
  }

  /** A term whose key is in the note namespace reaches that key's rule. */
  lemma NoteRoute(term: string, key: string, v: string, rest: string, guard: seq<string> -> bool)
    requires KeyValueTerm(term, key, v, rest) && InNoteNamespace(key)
    ensures ':' in term && TermValue(term) == v
    ensures RuleOf(term, guard) == NoteRule(key)
  {
    KeyAndValue(term, key, v, rest);
  }

  // ---------------------------------------------------------------------
  // Free text and the single-criterion rules
  // ---------------------------------------------------------------------

  /** A term without a colon searches note content for the whole term and
      leaves the actor criteria alone. */
  lemma FreeTextTerm(term: string, actor: Option<int>, note: Acc, actors: Acc, guard: seq<string> -> bool)
    requires ':' !in term
    ensures Compile(term, actor, note, actors, guard) == Next(Single(Contains(NoteContent, term)), actors)
  {
  }

  /** `note-local:v` replaces the note criteria by one test of `is_local`
      against the boolean reading of `v`; text after a second colon is
      ignored. */
  lemma NoteLocalTerm(term: string, v: string, rest: string, actor: Option<int>, note: Acc, actors: Acc, guard: seq<string> -> bool)
    requires KeyValueTerm(term, "note-local", v, rest)
    ensures Compile(term, actor, note, actors, guard) == Next(Single(Eq(NoteIsLocal, Bool(FilterBool(v)))), actors)
  {
    KeyAndValue(term, "note-local", v, rest);
    assert InNoteNamespace("note-local");
  }

  /** `note-conversation:v` replaces the note criteria by one test of the
      conversation id against the integer read from the trimmed `v`. */
  lemma NoteConversationTerm(term: string, v: string, rest: string, actor: Option<int>, note: Acc, actors: Acc, guard: seq<string> -> bool)
    requires KeyValueTerm(term, "note-conversation", v, rest)
    ensures Compile(term, actor, note, actors, guard)
         == Next(Single(Eq(NoteConversationId, Int(IntCast(Trim(v))))), actors)
  {
    assert InNoteNamespace("note-conversation");
    NoteRoute(term, "note-conversation", v, rest, guard);
    assert RuleOf(term, guard) == NoteConversation;
  }

  /** The conversation rule reads a plain decimal id back exactly. */
  lemma NoteConversationReadsId(term: string, id: nat, actor: Option<int>, note: Acc, actors: Acc, guard: seq<string> -> bool)
    requires id <= MaxInt
    requires term == "note-conversation:" + Decimal(id)
    ensures Compile(term, actor, note, actors, guard) == Next(Single(Eq(NoteConversationId, Int(id))), actors)
  {
    var d := Decimal(id);
    assert ':' !in d by {
      forall i | 0 <= i < |d| ensures d[i] != ':' { assert IsDigit(d[i]); }
    }
    assert KeyValueTerm(term, "note-conversation", d, []) by {
      assert term == "note-conversation" + ":" + d + [];
    }
    NoteConversationTerm(term, d, [], actor, note, actors, guard);
    DecimalTrims(id);
    IntCastOfDecimal(id);
  }

  // ---------------------------------------------------------------------
  // The note-type rule
  // ---------------------------------------------------------------------

  /** A note-type key appends exactly one criterion to the note criteria
      (after `null` became `[]`): content must be present exactly when `text`
      or `words` is among the comma-separated values, and must be absent
      otherwise. An accumulator holding a single expression cannot be
      appended to. */
  lemma NoteTypesTerm(term: string, key: string, v: string, rest: string, actor: Option<int>, note: Acc, actors: Acc, guard: seq<string> -> bool)
    requires key in NoteTypesKeys
    requires KeyValueTerm(term, key, v, rest)
    ensures note.Single? ==> Compile(term, actor, note, actors, guard) == Thrown(NotAnArray)
    ensures !note.Single? ==> exists p ::
      && Compile(term, actor, note, actors, guard) == Next(List(Prior(note) + [p]), actors)
      && (p == NotEq(NoteContent, Null) <==> Meets(Explode(v, ','), {"text", "words"}))
      && (p == Eq(NoteContent, Null) <==> !Meets(Explode(v, ','), {"text", "words"}))
  {
    assert InNoteNamespace(key);
    NoteRoute(term, key, v, rest, guard);
    assert RuleOf(term, guard) == NoteTypes;
    var p := ContentPresence(v);
    if !note.Single? {
      assert note.Absent? ==> Prior(note) + [p] == [p];
      assert AppendAll(note, [p]) == Some(List(Prior(note) + [p]));
      assert Compile(term, actor, note, actors, guard) == Next(List(Prior(note) + [p]), actors);
    }
  }

  /** What the note-type criterion selects: notes with content exactly when
      `text` or `words` was asked for. */
  lemma ContentPresenceSelects(v: string, row: Row)
    ensures Holds(ContentPresence(v), row)
        <==> (Column(row, NoteContent) != Null <==> Meets(Explode(v, ','), ContentWords))
  {
  }

  // ---------------------------------------------------------------------
  // The note-from rule
  // ---------------------------------------------------------------------

  /** The values of a note-from term, each classified. */
  function Classified(froms: seq<string>): (cs: seq<From>)
    ensures |cs| == |froms|
    decreases |froms|
  {
    if froms == [] then [] else Classified(froms[..|froms| - 1]) + [ClassifyFrom(froms[|froms| - 1])]
  }

  lemma {:induction false} ClassifiedAt(froms: seq<string>, i: nat)
    requires i < |froms|
    ensures Classified(froms)[i] == ClassifyFrom(froms[i])
    decreases |froms|
  {
    var p := froms[..|froms| - 1];
    if i < |froms| - 1 {
      assert p[i] == froms[i];
      ClassifiedAt(p, i);
    }
  }

  /** The kind one value names, if it names one that resolves. */
  function KindNamedBy(c: From): seq<ActorKind> {
    if c.KindNamed? then (match KindConstant(c.name) case Some(k) => [k] case None => []) else []
  }

  /** The first `subscribed-<kind>` value whose upper-cased kind is no
      constant of the actor class. */
  function FirstUndefined(cs: seq<From>): Option<string>
    decreases |cs|
  {
    if cs == [] then None
    else
      match FirstUndefined(cs[..|cs| - 1])
      case Some(n) => Some(n)
      case None =>
        var c := cs[|cs| - 1];
        if c.KindNamed? && KindConstant(c.name).None? then Some(c.name) else None
  }

  /** The kinds that count: those named, in order, after the last
      `subscribed-actor(s)` (after the start when there is none). */
  function KindsRequested(cs: seq<From>): seq<ActorKind>
    decreases |cs|
  {
    if cs == [] || cs[|cs| - 1] == AnyActor then []
    else KindsRequested(cs[..|cs| - 1]) + KindNamedBy(cs[|cs| - 1])
  }

  /** The kind list the loop ends with, stated without the loop: a
      `subscribed-actor(s)` value discards every kind named before it, and a
      kind named after it starts a new list. */
  function ScanExpected(cs: seq<From>, init: Option<seq<ActorKind>>): Scan {
    match FirstUndefined(cs)
    case Some(n) => Undefined(n)
    case None =>
      var ks := KindsRequested(cs);
      if AnyActor !in cs then
        (if ks == [] then Kinds(init) else Kinds(Some(init.GetOr([]) + ks)))
      else
        (if ks == [] then Kinds(None) else Kinds(Some(ks)))
  }

  /** One more value moves `ScanExpected` on as one turn of the loop does. */
  lemma ScanExpectedStep(cs: seq<From>, init: Option<seq<ActorKind>>)
    requires cs != [] && FirstUndefined(cs[..|cs| - 1]).None?
    ensures ScanExpected(cs[..|cs| - 1], init).Kinds?
    ensures ScanExpected(cs, init) == ScanStep(ScanExpected(cs[..|cs| - 1], init).list, cs[|cs| - 1])
  {
    match cs[|cs| - 1]
    case Other => ScanExpectedOtherStep(cs, init);
    case AnyActor => ScanExpectedAnyStep(cs, init);
    case KindNamed(name) =>
      match KindConstant(name)
      case None =>
      case Some(k) => ScanExpectedKindStep(cs, init, k);
  }

  lemma ScanExpectedOtherStep(cs: seq<From>, init: Option<seq<ActorKind>>)
    requires cs != [] && FirstUndefined(cs[..|cs| - 1]).None?
    requires cs[|cs| - 1].Other?
    ensures ScanExpected(cs, init) == ScanExpected(cs[..|cs| - 1], init)
  {
    var p := cs[..|cs| - 1];
    KindsRequestedStep(cs);
    assert KindNamedBy(cs[|cs| - 1]) == [];
    assert KindsRequested(cs) == KindsRequested(p) + [] == KindsRequested(p);
    assert FirstUndefined(cs) == None;
  }

  /** A value other than `subscribed-actor(s)` keeps the last reset and adds
      the kind it names, if any. */
  lemma KindsRequestedStep(cs: seq<From>)
    requires cs != [] && !cs[|cs| - 1].AnyActor?
    ensures (AnyActor in cs) == (AnyActor in cs[..|cs| - 1])
    ensures KindsRequested(cs) == KindsRequested(cs[..|cs| - 1]) + KindNamedBy(cs[|cs| - 1])
  {
    var p := cs[..|cs| - 1];
    if AnyActor in cs {
      var i :| 0 <= i < |cs| && cs[i] == AnyActor;
      assert p[i] == AnyActor;
    }
    if AnyActor in p {
      var i :| 0 <= i < |p| && p[i] == AnyActor;
      assert cs[i] == AnyActor;
    }
  }

  lemma ScanExpectedAnyStep(cs: seq<From>, init: Option<seq<ActorKind>>)
    requires cs != [] && FirstUndefined(cs[..|cs| - 1]).None?
    requires cs[|cs| - 1].AnyActor?
    ensures ScanExpected(cs, init) == Kinds(None)
  {
    assert AnyActor == cs[|cs| - 1];
    assert FirstUndefined(cs) == None;
    assert KindsRequested(cs) == [];
  }

  lemma ScanExpectedKindStep(cs: seq<From>, init: Option<seq<ActorKind>>, k: ActorKind)
    requires cs != [] && FirstUndefined(cs[..|cs| - 1]).None?
    requires cs[|cs| - 1].KindNamed? && KindConstant(cs[|cs| - 1].name) == Some(k)
    ensures ScanExpected(cs[..|cs| - 1], init).Kinds?
    ensures ScanExpected(cs, init) == Kinds(Some(ScanExpected(cs[..|cs| - 1], init).list.GetOr([]) + [k]))
  {
    var p := cs[..|cs| - 1];
    KindsRequestedStep(cs);
    assert KindNamedBy(cs[|cs| - 1]) == [k];
    assert FirstUndefined(cs) == None;
    var ks := KindsRequested(p);
    if AnyActor in p {
      assert ScanExpected(p, init).list.GetOr([]) == ks;
    } else {
      assert ScanExpected(p, init).list.GetOr([]) == init.GetOr([]) + ks;
      assert init.GetOr([]) + (ks + [k]) == init.GetOr([]) + ks + [k];
    }
  }

  /** The loop over the note-from values computes `ScanExpected`. */
  lemma {:induction false} ScanFromsIsExpected(froms: seq<string>, init: Option<seq<ActorKind>>)
    ensures ScanFroms(froms, init) == ScanExpected(Classified(froms), init)
    decreases |froms|
  {
    if froms != [] {
      var p := froms[..|froms| - 1];
      var cs := Classified(froms);
      assert cs[..|cs| - 1] == Classified(p);
      ScanFromsIsExpected(p, init);
      if FirstUndefined(Classified(p)).None? {
        ScanExpectedStep(cs, init);
      }
    }
  }

  /** The note-from rule needs the requesting actor: without one it throws. */
  lemma NoteFromWithoutActor(term: string, key: string, v: string, rest: string, note: Acc, actors: Acc, guard: seq<string> -> bool)
    requires key in NoteFromKeys
    requires KeyValueTerm(term, key, v, rest)
    ensures Compile(term, None, note, actors, guard) == Thrown(NullActor)
  {
    assert InNoteNamespace(key);
    NoteRoute(term, key, v, rest, guard);
    assert RuleOf(term, guard) == NoteFrom;
  }

  /** The value `subscribed` on its own: no kind, and no reset. */
  lemma SubscribedAlone()
    ensures Classified(Explode("subscribed", ',')) == [Other]
  {
    ExplodeWithout("subscribed", ',');
    assert !StartsWith("subscribed", SubscribedDash);
    assert ["subscribed"][..0] == [];
  }

  /** `NoteFromRule` for an actor, stated through `ScanExpected`. */
  lemma NoteFromRuleOutcomes(v: string, id: int, note: Acc, actors: Acc)
    ensures var cs := Classified(Explode(v, ','));
      var ks := KindsRequested(cs);
      NoteFromRule(v, Some(id), note, actors) ==
        if FirstUndefined(cs).Some? then Thrown(UndefinedConstant(FirstUndefined(cs).value))
        else if v == "subscribed" || (AnyActor in cs && ks == []) then Next(Single(SubscribedBy(id)), actors)
        else if ks != [] then Next(Single(And([SubscribedBy(id), In(NoteActorType, KindValues(ks))])), actors)
        else Next(note, actors)
  {
    var froms := Explode(v, ',');
    var init := if v == "subscribed" then None else Some([]);
    ScanFromsIsExpected(froms, init);
    if v == "subscribed" {
      SubscribedAlone();
      OnlySubscribed(id, note, actors);
    } else {
      ListOutcome(Classified(froms), id, note, actors);
    }
  }

  lemma OnlySubscribed(id: int, note: Acc, actors: Acc)
    ensures FirstUndefined([Other]).None? && KindsRequested([Other]) == []
    ensures NoteFromResult(ScanExpected([Other], None), id, note, actors) == Next(Single(SubscribedBy(id)), actors)
  {
    assert [Other][..0] == [];
  }

  /** The outcome once the kind list starts empty rather than `null`. */
  lemma ListOutcome(cs: seq<From>, id: int, note: Acc, actors: Acc)
    ensures var ks := KindsRequested(cs);
      NoteFromResult(ScanExpected(cs, Some([])), id, note, actors) ==
        if FirstUndefined(cs).Some? then Thrown(UndefinedConstant(FirstUndefined(cs).value))
        else if AnyActor in cs && ks == [] then Next(Single(SubscribedBy(id)), actors)
        else if ks != [] then Next(Single(And([SubscribedBy(id), In(NoteActorType, KindValues(ks))])), actors)
        else Next(note, actors)
  {
    var ks := KindsRequested(cs);
    if FirstUndefined(cs).Some? {
      assert ScanExpected(cs, Some([])) == Undefined(FirstUndefined(cs).value);
    } else {
      if AnyActor in cs {
        assert ScanExpected(cs, Some([])) == (if ks == [] then Kinds(None) else Kinds(Some(ks)));
      } else {
        assert [] + ks == ks;
        assert ScanExpected(cs, Some([])) == Kinds(Some(ks));
      }
    }
  }

  /** The three outcomes of the note-from rule, in order of precedence: the
      bare subscription criterion when the value is `subscribed` or the last
      `subscribed-actor(s)` is followed by no kind; the subscription criterion
      together with the author kinds when kinds are requested; no change
      otherwise. A kind name that is no constant throws first. The actor
      criteria are never touched. */
  lemma NoteFromOutcomes(term: string, key: string, v: string, rest: string, id: int, note: Acc, actors: Acc, guard: seq<string> -> bool)
    requires key in NoteFromKeys
    requires KeyValueTerm(term, key, v, rest)
    ensures var cs := Classified(Explode(v, ','));
      var ks := KindsRequested(cs);
      Compile(term, Some(id), note, actors, guard) ==
        if FirstUndefined(cs).Some? then Thrown(UndefinedConstant(FirstUndefined(cs).value))
        else if v == "subscribed" || (AnyActor in cs && ks == []) then Next(Single(SubscribedBy(id)), actors)
        else if ks != [] then Next(Single(And([SubscribedBy(id), In(NoteActorType, KindValues(ks))])), actors)
        else Next(note, actors)
  {
    assert InNoteNamespace(key);
    NoteRoute(term, key, v, rest, guard);
    assert RuleOf(term, guard) == NoteFrom;
    NoteFromRuleOutcomes(v, id, note, actors);
  }

  /** `note-from:subscribed` with an actor gives exactly the subscription criterion. */
  lemma NoteFromSubscribed(term: string, key: string, rest: string, id: int, note: Acc, actors: Acc, guard: seq<string> -> bool)
    requires key in NoteFromKeys
    requires KeyValueTerm(term, key, "subscribed", rest)
    ensures Compile(term, Some(id), note, actors, guard) == Next(Single(SubscribedBy(id)), actors)
  {
    NoteFromOutcomes(term, key, "subscribed", rest, id, note, actors, guard);
    SubscribedAlone();
    assert [Other][..0] == [];
  }

  /** Values that do not start with `subscribed-` are ignored: with none that
      does (and a value other than `subscribed`) the note criteria stay as
      they were. */
  lemma NoteFromIgnoresOtherValues(term: string, key: string, v: string, rest: string, id: int, note: Acc, actors: Acc, guard: seq<string> -> bool)
    requires key in NoteFromKeys
    requires KeyValueTerm(term, key, v, rest)
    requires v != "subscribed"
    requires forall i :: 0 <= i < |Explode(v, ',')| ==> !StartsWith(Explode(v, ',')[i], SubscribedDash)
    ensures Compile(term, Some(id), note, actors, guard) == Next(note, actors)
  {
    NoteFromOutcomes(term, key, v, rest, id, note, actors, guard);
    var froms := Explode(v, ',');
    var cs := Classified(froms);
    forall i | 0 <= i < |cs|
      ensures cs[i] == Other
    {
      ClassifiedAt(froms, i);
    }
    OnlyOthers(cs);
  }

  lemma {:induction false} OnlyOthers(cs: seq<From>)
    requires forall i :: 0 <= i < |cs| ==> cs[i] == Other
    ensures FirstUndefined(cs) == None && AnyActor !in cs && KindsRequested(cs) == []
    decreases |cs|
  {
    if cs != [] {
      var p := cs[..|cs| - 1];
      OnlyOthers(p);
      assert cs == p + [cs[|cs| - 1]];
      assert KindsRequested(cs) == KindsRequested(p) + [];
    }
  }

  /** A kind named right after `subscribed-actor(s)` starts a new
      one-element list, whatever was collected before. */
  lemma KindAfterAnyActor(froms: seq<string>, init: Option<seq<ActorKind>>, k: ActorKind)
    requires |froms| >= 2
    requires ScanFroms(froms[..|froms| - 2], init).Kinds?
    requires ClassifyFrom(froms[|froms| - 2]) == AnyActor
    requires ClassifyFrom(froms[|froms| - 1]) == KindNamed(ConstantName(k))
    ensures ScanFroms(froms, init) == Kinds(Some([k]))
  {
    var n := |froms|;
    var p := froms[..n - 1];
    ConstantNameResolves(k);
    assert p[..n - 2] == froms[..n - 2] && p[n - 2] == froms[n - 2];
    assert ScanFroms(p, init) == ScanStep(ScanFroms(froms[..n - 2], init).list, AnyActor);
    assert ScanFroms(froms, init) == ScanStep(None, KindNamed(ConstantName(k)));
    assert ScanStep(None, KindNamed(ConstantName(k))) == Kinds(Some([] + [k]));
    assert [] + [k] == [k];
  }

  lemma ConstantNameResolves(k: ActorKind)
    ensures KindConstant(ConstantName(k)) == Some(k)
  {
  }

  /** A `subscribed-<kind>` value resolves exactly when its kind word is, up to
      ASCII case, the name of a kind's constant: the plural and the other
      synonyms of the actor-type rule do not resolve. */
  lemma KindWordResolves(word: string, k: ActorKind)
    ensures KindConstant(Upper(word)) == Some(k) <==> Lower(word) == Lower(ConstantName(k))
  {
    var name := ConstantName(k);
    assert forall i :: 0 <= i < |name| ==> 'A' <= name[i] <= 'Z';
    UpperMatchesIffLowerMatches(word, name);
    ConstantNameResolves(k);
  }

  /** Once some value names a kind that is no constant, the scan stops there. */
  lemma {:induction false} UndefinedFound(cs: seq<From>, i: nat)
    requires i < |cs|
    requires cs[i].KindNamed? && KindConstant(cs[i].name).None?
    ensures FirstUndefined(cs).Some?
    decreases |cs|
  {
    var p := cs[..|cs| - 1];
    if i < |cs| - 1 {
      assert p[i] == cs[i];
      UndefinedFound(p, i);
    }
  }

  /** A value naming a kind that is no constant (a plural such as
      `subscribed-bots`, or a synonym such as `subscribed-org`) makes the
      whole term throw, wherever it stands: a later `subscribed-actor(s)`
      does not undo it. */
  lemma UnknownKindThrows(term: string, key: string, v: string, rest: string, i: nat, id: int, note: Acc, actors: Acc, guard: seq<string> -> bool)
    requires key in NoteFromKeys
    requires KeyValueTerm(term, key, v, rest)
    requires i < |Explode(v, ',')|
    requires ClassifyFrom(Explode(v, ',')[i]).KindNamed?
    requires KindConstant(ClassifyFrom(Explode(v, ',')[i]).name).None?
    ensures Compile(term, Some(id), note, actors, guard).Thrown?
    ensures Compile(term, Some(id), note, actors, guard).fault.UndefinedConstant?
  {
    NoteFromOutcomes(term, key, v, rest, id, note, actors, guard);
    ClassifiedAt(Explode(v, ','), i);
    UndefinedFound(Classified(Explode(v, ',')), i);
  }

  // ---------------------------------------------------------------------
  // The actor-type rule
  // ---------------------------------------------------------------------

  /** An actor-type key is outside the note namespace. */
  lemma ActorRoute(term: string, guard: seq<string> -> bool)
    requires ':' in term && TermKey(term) in ActorTypesKeys && guard(Explode(term, ':'))
    ensures RuleOf(term, guard) == ActorTypes
  {
    var key := TermKey(term);
    assert key[0] == 'a';
    FirstCharDiffers(key, "note-");
    FirstCharDiffers(key, "notes-");
  }

  /** An actor-type key admitted by the actor-namespace test appends the
      actor-type criteria to the actor criteria and leaves the note criteria
      untouched; an accumulator holding a single expression cannot be
      appended to. */
  lemma ActorTypesTerm(term: string, actor: Option<int>, note: Acc, actors: Acc, guard: seq<string> -> bool)
    requires ':' in term && TermKey(term) in ActorTypesKeys && guard(Explode(term, ':'))
    ensures actors.Single? ==> Compile(term, actor, note, actors, guard) == Thrown(NotAnArray)
    ensures !actors.Single? ==>
      Compile(term, actor, note, actors, guard) == Next(note, List(Prior(actors) + ActorTypePreds(TermValue(term))))
  {
    ActorRoute(term, guard);
    ActorTypesCompile(term, actor, note, actors, guard);
    AppendShape(actors, ActorTypePreds(TermValue(term)));
  }

  lemma ActorTypesCompile(term: string, actor: Option<int>, note: Acc, actors: Acc, guard: seq<string> -> bool)
    requires RuleOf(term, guard) == ActorTypes
    ensures Compile(term, actor, note, actors, guard) ==
      match AppendAll(actors, ActorTypePreds(TermValue(term)))
      case None => Thrown(NotAnArray)
      case Some(acc) => Next(note, acc)
  {
  }

  /** The actor-type criteria are five, one per kind in the order person,
      group, organization, business, bot: equality for a kind one of whose
      words is among the values, inequality for every other kind. */
  lemma ActorTypePredsInOrder(value: string)
    ensures KindOrder == [Person, Group, Organization, Business, Bot]
    ensures |ActorTypePreds(value)| == 5
    ensures forall i :: 0 <= i < 5 ==>
      ActorTypePreds(value)[i] == (if KindOrder[i] in SelectedKinds(value)
                                   then Eq(ActorType, Kind(KindOrder[i])) else NotEq(ActorType, Kind(KindOrder[i])))
  {
  }

  /** Where each kind stands in `KindOrder`. */
  function KindIndex(k: ActorKind): (i: nat)
    ensures i < |KindOrder| && KindOrder[i] == k
  {
    match k
    case Person => 0
    case Group => 1
    case Organization => 2
    case Business => 3
    case Bot => 4
  }

  /** The kinds whose words appear among the values of an actor-type term. */
  function SelectedKinds(value: string): set<ActorKind> {
    set k | k in KindOrder && Meets(Explode(value, ','), Synonyms(k))
  }

  /** An actor of kind `t` passes all five criteria exactly when `t` is the
      only kind asked for: asking for two kinds selects no actor at all. */
  lemma ActorTypesSelectOneKind(value: string, row: Row, t: ActorKind)
    requires Column(row, ActorType) == Kind(t)
    ensures HoldsAll(ActorTypePreds(value), row) <==> SelectedKinds(value) == {t}
  {
    ActorTypePredsInOrder(value);
    OneKindPasses(ActorTypePreds(value), SelectedKinds(value), row, t);
  }

  /** Five criteria, equality for the kinds in `s` and inequality for the
      others, all hold for an actor of kind `t` exactly when `s` is `{t}`. */
  lemma OneKindPasses(ps: seq<Pred>, s: set<ActorKind>, row: Row, t: ActorKind)
    requires Column(row, ActorType) == Kind(t)
    requires |ps| == 5
    requires forall i :: 0 <= i < 5 ==>
      ps[i] == (if KindOrder[i] in s then Eq(ActorType, Kind(KindOrder[i])) else NotEq(ActorType, Kind(KindOrder[i])))
    ensures HoldsAll(ps, row) <==> s == {t}
  {
    assert forall i :: 0 <= i < 5 ==> (Holds(ps[i], row) <==> (KindOrder[i] in s <==> KindOrder[i] == t));
    if HoldsAll(ps, row) {
      forall k: ActorKind ensures k in s <==> k == t {
        assert Holds(ps[KindIndex(k)], row);
      }
    }
  }

  /** An actor without a kind passes none of the five criteria' conjunction. */
  lemma ActorTypesRejectKindless(value: string, row: Row)
    requires Column(row, ActorType) == Null
    ensures !HoldsAll(ActorTypePreds(value), row)
  {
    var ps := ActorTypePreds(value);
    assert ps[0] == KindPred(Person, Explode(value, ','));
    assert !Holds(ps[0], row);
  }

  // ---------------------------------------------------------------------
  // Keys no rule claims, and the faults
  // ---------------------------------------------------------------------

  const RuleKeys: set<string> :=
    {"note-local", "note-conversation"} + NoteTypesKeys + NoteFromKeys + ActorTypesKeys

  /** A key outside the rule table leaves both accumulators unchanged and
      returns `Event::next`. */
  lemma UnknownKeyChangesNothing(term: string, actor: Option<int>, note: Acc, actors: Acc, guard: seq<string> -> bool)
    requires ':' in term && TermKey(term) !in RuleKeys
    ensures Compile(term, actor, note, actors, guard) == Next(note, actors)
  {
  }

  /** The handler returns `Event::next` except in three cases: appending to
      an accumulator that holds one expression, the note-from rule without an
      actor, and a kind name with no constant. */
  lemma WhereItThrows(term: string, actor: Option<int>, note: Acc, actors: Acc, guard: seq<string> -> bool)
    ensures Compile(term, actor, note, actors, guard) == Thrown(NotAnArray) ==>
      (RuleOf(term, guard) == NoteTypes && note.Single?) || (RuleOf(term, guard) == ActorTypes && actors.Single?)
    ensures Compile(term, actor, note, actors, guard) == Thrown(NullActor) ==>
      RuleOf(term, guard) == NoteFrom && actor.None?
    ensures Compile(term, actor, note, actors, guard).Thrown? && Compile(term, actor, note, actors, guard).fault.UndefinedConstant? ==>
      RuleOf(term, guard) == NoteFrom && actor.Some?
    ensures RuleOf(term, guard) in {FreeText, NoteLocal, NoteConversation, NoRule} ==>
      Compile(term, actor, note, actors, guard).Next?
  {
  }

  // ---------------------------------------------------------------------
  // The `notes-` aliases
  // ---------------------------------------------------------------------

  /** As written, `notes-include` and `notes-from` never reach their rules:
      neither starts with `note-`, and the actor switch has no such case.
      The corrected routing reaches them. */
  lemma NotesAliasesUnreachableAsWritten(term: string, key: string, v: string, rest: string, guard: seq<string> -> bool)
    requires key in {"notes-include", "notes-from"}
    requires KeyValueTerm(term, key, v, rest)
    ensures RuleOfAsWritten(term, guard) == NoRule
    ensures RuleOf(term, guard) == (if key == "notes-include" then NoteTypes else NoteFrom)
  {
    KeyAndValue(term, key, v, rest);
    assert key[4] == 's';
    assert !InNoteNamespaceAsWritten(key);
    assert InNoteNamespace(key);
  }

  /** The two routings agree on every other term. */
  lemma RoutingsAgreeElsewhere(term: string, guard: seq<string> -> bool)
    requires ':' !in term || TermKey(term) !in {"notes-include", "notes-from"}
    ensures RuleOf(term, guard) == RuleOfAsWritten(term, guard)
  {
    if ':' in term {
      var key := TermKey(term);
      if StartsWith(key, "notes-") {
        assert !StartsWith(key, "note-") by { assert key[4] == 's'; }
        assert key !in RuleKeys - {"notes-include", "notes-from"} by {
          assert key[..6] == "notes-";
        }
      }
    }
  }
}
