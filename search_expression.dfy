/**
  The search-term compiler of the Feed component: the `SearchCreateExpression`
  handler turns one query term, with the requesting actor if there is one,
  into criteria on notes and on actors, added to the two accumulators it is
  handed by reference.

  `Compile` says what one call does, as a function of the term, the actor and
  the incoming accumulators; `CreateExpression` does it step by step as the
  handler does and is proved to agree with `Compile`.
*/
module SearchExpression {
  import opened Optional
  import opened PhpStrings
  import opened Criteria

  /** Why a call throws instead of returning `Event::next`. */
  datatype Fault =
    | NullActor                    // `$actor->getId()` on a null actor
    | UndefinedConstant(name: string)  // `\constant('Actor::' . name)` with no such constant
    | NotAnArray                   // `$expr[] = ...` on an accumulator holding one expression object

  /** The result of one call: `Event::next` with the accumulators as the call
      leaves them, or the error it throws. */
  datatype Outcome = Next(note: Acc, actor: Acc) | Thrown(fault: Fault)

  // ---------------------------------------------------------------------
  // Routing a term to its rule
  // ---------------------------------------------------------------------

  /** The rule a term selects. */
  datatype Rule = FreeText | NoteLocal | NoteTypes | NoteConversation | NoteFrom | ActorTypes | NoRule

  const NoteTypesKeys: set<string> := {"note-types", "notes-include", "note-filter"}
  const NoteFromKeys: set<string> := {"note-from", "notes-from"}
  const ActorTypesKeys: set<string> := {"actor-types", "actors-include", "actor-filter", "actor-local"}

  /** The `switch` over a key of the note namespace. */
  function NoteRule(key: string): Rule {
    if key == "note-local" then NoteLocal
    else if key in NoteTypesKeys then NoteTypes
    else if key == "note-conversation" then NoteConversation
    else if key in NoteFromKeys then NoteFrom
    else NoRule
  }

  /** The `switch` over a key of the actor namespace. */
  function ActorRule(key: string): Rule {
    if key in ActorTypesKeys then ActorTypes else NoRule
  }

  /** The note-namespace test as written: the key starts with `note-`. */
  predicate InNoteNamespaceAsWritten(key: string) {
    StartsWith(key, "note-")
  }

  /** The note-namespace test the key table calls for: `note-` or `notes-`. */
  predicate InNoteNamespace(key: string) {
    StartsWith(key, "note-") || StartsWith(key, "notes-")
  }

  /** The rule a term reaches as the handler is written. `guard` is the
      actor-namespace test, which is applied to the whole list of
      colon-separated pieces rather than to the key; its definition is not
      part of this model. */
  function RuleOfAsWritten(term: string, guard: seq<string> -> bool): (r: Rule)
    ensures r == FreeText <==> ':' !in term
  {
    if ':' !in term then FreeText
    else
      var segs := Explode(term, ':');
      if InNoteNamespaceAsWritten(segs[0]) then NoteRule(segs[0])
      else if guard(segs) then ActorRule(segs[0])
      else NoRule
  }

  /** The rule a term reaches once `notes-` keys are admitted to the note
      namespace; this is the routing the rest of the model uses. */
  function RuleOf(term: string, guard: seq<string> -> bool): (r: Rule)
    ensures r == FreeText <==> ':' !in term
  {
    if ':' !in term then FreeText
    else
      var segs := Explode(term, ':');
      if InNoteNamespace(segs[0]) then NoteRule(segs[0])
      else if guard(segs) then ActorRule(segs[0])
      else NoRule
  }

  /** The key of a term: the text before its first colon. */
  function TermKey(term: string): string {
    Explode(term, ':')[0]
  }

  /** The value of a term: `$term[1]`, the text between its first and second colons. */
  function TermValue(term: string): string
    requires ':' in term
  {
    Explode(term, ':')[1]
  }

  // ---------------------------------------------------------------------
  // The rules
  // ---------------------------------------------------------------------

  /** `$acc[] = p` for each `p` in turn, after `null` became `[]`; an
      accumulator holding one expression object cannot be appended to. */
  function AppendAll(acc: Acc, ps: seq<Pred>): Option<Acc> {
    match acc
    case Absent => Some(List(ps))
    case List(qs) => Some(List(qs + ps))
    case Single(_) => None
  }

  const ContentWords: set<string> := {"text", "words"}

  /** note-types: whether notes must have text content. */
  function ContentPresence(value: string): Pred {
    if Meets(Explode(value, ','), ContentWords) then NotEq(NoteContent, Null) else Eq(NoteContent, Null)
  }

  /** The actor kinds in the order the actor-type rule visits them. */
  const KindOrder: seq<ActorKind> := [Person, Group, Organization, Business, Bot]

  /** The words that select each kind in the actor-type rule. */
  function Synonyms(k: ActorKind): set<string> {
    match k
    case Person => {"person", "people"}
    case Group => {"group", "groups"}
    case Organization => {"org", "orgs", "organization", "organizations", "organisation", "organisations"}
    case Business => {"business", "businesses"}
    case Bot => {"bot", "bots"}
  }

  /** The criterion the actor-type rule adds for one kind. */
  function KindPred(k: ActorKind, values: seq<string>): Pred {
    if Meets(values, Synonyms(k)) then Eq(ActorType, Kind(k)) else NotEq(ActorType, Kind(k))
  }

  /** The five criteria the actor-type rule adds, one per kind in `KindOrder`. */
  function ActorTypePreds(value: string): (ps: seq<Pred>) {
    var values := Explode(value, ',');
    [KindPred(Person, values), KindPred(Group, values), KindPred(Organization, values),
     KindPred(Business, values), KindPred(Bot, values)]
  }

  lemma ActorTypePredAt(value: string, j: nat)
    requires j < |KindOrder|
    ensures |ActorTypePreds(value)| == |KindOrder|
    ensures ActorTypePreds(value)[j] == KindPred(KindOrder[j], Explode(value, ','))
  {
    assert j == 0 || j == 1 || j == 2 || j == 3 || j == 4;
  }

  /** The name of the class constant of each kind. */
  function ConstantName(k: ActorKind): string {
    match k
    case Person => "PERSON"
    case Group => "GROUP"
    case Organization => "ORGANIZATION"
    case Business => "BUSINESS"
    case Bot => "BOT"
  }

  /** `\constant(Actor::class . '::' . name)`: the kind a constant name denotes, if any. */
  function KindConstant(name: string): (k: Option<ActorKind>)
    ensures k.Some? ==> ConstantName(k.value) == name
  {
    if name == "PERSON" then Some(Person)
    else if name == "GROUP" then Some(Group)
    else if name == "ORGANIZATION" then Some(Organization)
    else if name == "BUSINESS" then Some(Business)
    else if name == "BOT" then Some(Bot)
    else None
  }

  /** What one comma-separated value of a note-from term asks for. */
  datatype From =
    | Other                    // does not start with `subscribed-`: ignored
    | AnyActor                 // `subscribed-actor` or `subscribed-actors`
    | KindNamed(name: string)  // `subscribed-<kind>`, the kind's name upper-cased

  const SubscribedDash: string := "subscribed-"

  /** The kind word of `subscribed-<kind>...` is the text between its first
      and second `-`: `[, $type] = explode('-', $from)`. */
  function ClassifyFrom(from: string): From {
    if !StartsWith(from, SubscribedDash) then Other
    else
      assert from[10] == '-' by { assert from[..11] == SubscribedDash; }
      var word := Explode(from, '-')[1];
      if word == "actor" || word == "actors" then AnyActor else KindNamed(Upper(word))
  }

  /** The kind list `$type_consts` (`None` for `null`) or the constant name
      that could not be resolved. */
  datatype Scan = Kinds(list: Option<seq<ActorKind>>) | Undefined(name: string)

  /** One turn of the loop over the values of a note-from term. Appending to
      a `null` list starts a new one. */
  function ScanStep(acc: Option<seq<ActorKind>>, c: From): Scan {
    match c
    case Other => Kinds(acc)
    case AnyActor => Kinds(None)
    case KindNamed(n) =>
      match KindConstant(n)
      case None => Undefined(n)
      case Some(k) => Kinds(Some(acc.GetOr([]) + [k]))
  }

  /** The loop over all values, from the left; the first unresolvable name stops it. */
  function ScanFroms(froms: seq<string>, init: Option<seq<ActorKind>>): Scan
    decreases |froms|
  {
    if froms == [] then Kinds(init)
    else
      match ScanFroms(froms[..|froms| - 1], init)
      case Undefined(n) => Undefined(n)
      case Kinds(acc) => ScanStep(acc, ClassifyFrom(froms[|froms| - 1]))
  }

  function KindValues(ks: seq<ActorKind>): (vs: seq<Value>)
    ensures |vs| == |ks| && forall i :: 0 <= i < |ks| ==> vs[i] == Kind(ks[i])
  {
    seq(|ks|, i requires 0 <= i < |ks| => Kind(ks[i]))
  }

  /** The criterion "written by an account the actor subscribes to". */
  function SubscribedBy(actorId: int): Pred {
    Eq(SubscriptionSubscriber, Int(actorId))
  }

  /** What the note-from rule yields once the kind list is known: the bare
      subscription criterion for a `null` list, nothing for an empty one. */
  function NoteFromResult(scan: Scan, actorId: int, note: Acc, actors: Acc): Outcome {
    match scan
    case Undefined(n) => Thrown(UndefinedConstant(n))
    case Kinds(None) => Next(Single(SubscribedBy(actorId)), actors)
    case Kinds(Some(ks)) =>
      if ks == [] then Next(note, actors)
      else Next(Single(And([SubscribedBy(actorId), In(NoteActorType, KindValues(ks))])), actors)
  }

  /** The note-from rule. */
  function NoteFromRule(value: string, actor: Option<int>, note: Acc, actors: Acc): Outcome {
    if actor.None? then Thrown(NullActor)
    else
      var init := if value == "subscribed" then None else Some([]);
      NoteFromResult(ScanFroms(Explode(value, ','), init), actor.value, note, actors)
  }

  /** What one call of the handler does. */
  function Compile(term: string, actor: Option<int>, note: Acc, actors: Acc, guard: seq<string> -> bool): Outcome {
    match RuleOf(term, guard)
    case FreeText => Next(Single(Contains(NoteContent, term)), actors)
    case NoteLocal => Next(Single(Eq(NoteIsLocal, Bool(FilterBool(TermValue(term))))), actors)
    case NoteTypes =>
      (match AppendAll(note, [ContentPresence(TermValue(term))])
       case None => Thrown(NotAnArray)
       case Some(acc) => Next(acc, actors))
    case NoteConversation => Next(Single(Eq(NoteConversationId, Int(IntCast(Trim(TermValue(term)))))), actors)
    case NoteFrom => NoteFromRule(TermValue(term), actor, note, actors)
    case ActorTypes =>
      (match AppendAll(actors, ActorTypePreds(TermValue(term)))
       case None => Thrown(NotAnArray)
       case Some(acc) => Next(note, acc))
    case NoRule => Next(note, actors)
  }

  // ---------------------------------------------------------------------
  // The handler, step by step
  // ---------------------------------------------------------------------

  /** Once the scan has stopped on an unresolvable name, later values change nothing. */
  lemma {:induction false} UndefinedSticks(froms: seq<string>, i: nat, init: Option<seq<ActorKind>>, n: string)
    requires i <= |froms|
    requires ScanFroms(froms[..i], init) == Undefined(n)
    ensures ScanFroms(froms, init) == Undefined(n)
    decreases |froms| - i
  {
    if i < |froms| {
      assert froms[..i + 1][..i] == froms[..i];
      UndefinedSticks(froms, i + 1, init, n);
    } else {
      assert froms[..i] == froms;
    }
  }

  /** The note-types branch: one criterion on note content appended to the
      note accumulator. */
  method AppendContentPresence(note: Acc, value: string) returns (r: Option<Acc>)
    ensures r == AppendAll(note, [ContentPresence(value)])
  {
    if note.Single? {
      return None;
    }
    var list := if note.List? then note.ps else [];
    ghost var base := list;
    if Meets(Explode(value, ','), ContentWords) {
      list := list + [NotEq(NoteContent, Null)];
    } else {
      list := list + [Eq(NoteContent, Null)];
    }
    assert list == base + [ContentPresence(value)];
    assert note.Absent? ==> base + [ContentPresence(value)] == [ContentPresence(value)];
    return Some(List(list));
  }

  /** One turn of the loop over the values of a note-from term. */
  method ScanOne(kinds: Option<seq<ActorKind>>, from: string) returns (r: Scan)
    ensures r == ScanStep(kinds, ClassifyFrom(from))
  {
    if !StartsWith(from, SubscribedDash) {
      return Kinds(kinds);
    }
    assert from[10] == '-' by { assert from[..11] == SubscribedDash; }
    var word := Explode(from, '-')[1];
    if word == "actor" || word == "actors" {
      return Kinds(None);
    }
    var k := KindConstant(Upper(word));
    if k.None? {
      return Undefined(Upper(word));
    }
    // Appending to a null `$type_consts` starts a new array.
    return Kinds(Some(kinds.GetOr([]) + [k.value]));
  }

  /** The `foreach` over the comma-separated values of a note-from term,
      building the kind list `$type_consts` from `init`. */
  method ScanSubscriptions(froms: seq<string>, init: Option<seq<ActorKind>>) returns (r: Scan)
    ensures r == ScanFroms(froms, init)
  {
    var kinds := init;
    var i := 0;
    while i < |froms|
      invariant 0 <= i <= |froms|
      invariant ScanFroms(froms[..i], init) == Kinds(kinds)
    {
      assert froms[..i + 1][..i] == froms[..i];
      var step := ScanOne(kinds, froms[i]);
      if step.Undefined? {
        UndefinedSticks(froms, i + 1, init, step.name);
        return step;
      }
      kinds := step.list;
      i := i + 1;
    }
    assert froms[..i] == froms;
    return Kinds(kinds);
  }

  /** The note-from branch: the scan of the values, then the choice of the
      note criterion. */
  method SubscribedFrom(value: string, actor: Option<int>, note: Acc, actors: Acc) returns (result: Outcome)
    ensures result == NoteFromRule(value, actor, note, actors)
  {
    if actor.None? {
      return Thrown(NullActor);
    }
    var subscribed := Eq(SubscriptionSubscriber, Int(actor.value));
    var init: Option<seq<ActorKind>> := Some([]);
    if value == "subscribed" {
      init := None;
    }
    var scan := ScanSubscriptions(Explode(value, ','), init);
    match scan
    case Undefined(n) =>
      result := Thrown(UndefinedConstant(n));
    case Kinds(None) =>
      result := Next(Single(subscribed), actors);
    case Kinds(Some(ks)) =>
      if ks != [] {
        result := Next(Single(And([subscribed, In(NoteActorType, KindValues(ks))])), actors);
      } else {
        result := Next(note, actors);
      }
  }

  /** The actor-type branch: the loop over the five kinds, each appending one
      criterion to the actor accumulator. */
  method AppendActorTypes(actors: Acc, value: string) returns (r: Option<Acc>)
    ensures r == AppendAll(actors, ActorTypePreds(value))
  {
    if actors.Single? {
      return None;
    }
    var list := if actors.List? then actors.ps else [];
    ghost var base := list;
    var values := Explode(value, ',');
    ghost var ps := ActorTypePreds(value);
    assert |ps| == |KindOrder|;
    var j := 0;
    while j < |KindOrder|
      invariant 0 <= j <= |KindOrder|
      invariant list == base + ps[..j]
    {
      var p := KindPred(KindOrder[j], values);
      ActorTypePredAt(value, j);
      assert ps[..j + 1] == ps[..j] + [p];
      list := list + [p];
      j := j + 1;
    }
    assert ps[..j] == ps;
    assert actors.Absent? ==> base + ps == ps;
    return Some(List(list));
  }

  /** `onSearchCreateExpression`: `noteExpr` and `actorExpr` are the incoming
      values of the by-reference accumulators; on `Event::next` the result
      carries their outgoing values. */
  method CreateExpression(term: string, actor: Option<int>, noteExpr: Acc, actorExpr: Acc, guard: seq<string> -> bool)
    returns (result: Outcome)
    ensures result == Compile(term, actor, noteExpr, actorExpr, guard)
  {
    if ':' !in term {
      return Next(Single(Contains(NoteContent, term)), actorExpr);
    }
    var segs := Explode(term, ':');
    var key, value := segs[0], segs[1];
    assert TermValue(term) == value;
    if InNoteNamespace(key) {
      assert RuleOf(term, guard) == NoteRule(key);
      if key == "note-local" {
        result := Next(Single(Eq(NoteIsLocal, Bool(FilterBool(value)))), actorExpr);
      } else if key in NoteTypesKeys {
        var appended := AppendContentPresence(noteExpr, value);
        result := if appended.None? then Thrown(NotAnArray) else Next(appended.value, actorExpr);
      } else if key == "note-conversation" {
        result := Next(Single(Eq(NoteConversationId, Int(IntCast(Trim(value))))), actorExpr);
      } else if key in NoteFromKeys {
        result := SubscribedFrom(value, actor, noteExpr, actorExpr);
      } else {
        result := Next(noteExpr, actorExpr);
      }
    } else if guard(segs) && key in ActorTypesKeys {
      assert RuleOf(term, guard) == ActorTypes;
      var appended := AppendActorTypes(actorExpr, value);
      result := if appended.None? then Thrown(NotAnArray) else Next(noteExpr, appended.value);
    } else {
      result := Next(noteExpr, actorExpr);
    }
  }
}
