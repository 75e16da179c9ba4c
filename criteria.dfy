/**
  The search criteria the term compiler builds with Doctrine's expression
  builder, as a closed datatype, and the reading the database gives them
  when they are applied to a record.
*/
module Criteria {
  import opened PhpStrings

  /** The actor kinds, the constants `Actor::PERSON` ... `Actor::BOT`. */
  datatype ActorKind = Person | Group | Organization | Business | Bot

  /** The columns the compiler compares. */
  datatype Field =
    | NoteContent             // note.content
    | NoteIsLocal             // note.is_local
    | NoteConversationId      // note.conversation_id
    | SubscriptionSubscriber  // subscription.subscriber (joined onto notes)
    | NoteActorType           // note_actor.type (the author, joined onto notes)
    | ActorType               // actor.type

  datatype Value = Null | Bool(b: bool) | Int(i: int) | Str(s: string) | Kind(k: ActorKind)

  /** `$eb->eq`, `$eb->neq`, `$eb->contains`, `$eb->in` and `$eb->andX`. */
  datatype Pred =
    | Eq(field: Field, value: Value)
    | NotEq(field: Field, value: Value)
    | Contains(field: Field, text: string)
    | In(field: Field, values: seq<Value>)
    | And(operands: seq<Pred>)

  /** A by-reference accumulator (`&$note_expr`, `&$actor_expr`): still
      `null`, one expression object, or an array of expressions. */
  datatype Acc = Absent | Single(p: Pred) | List(ps: seq<Pred>)

  /** One record's column values; a column that is not there is NULL. A note
      record is one note with a unique id: its own columns, its author's,
      and one subscription column that stands for a single row of the left
      join on `subscription` (the subscriber of that row, or NULL). */
  type Row = map<Field, Value>

  function Column(row: Row, f: Field): Value {
    if f in row then row[f] else Null
  }

  predicate IsInfix(t: string, s: string) {
    exists k :: 0 <= k <= |s| && StartsWith(s[k..], t)
  }

  /** Whether a record satisfies a criterion, as SQL reads the comparisons
      Doctrine emits: a comparison with NULL is `IS [NOT] NULL`, and any
      other comparison against a NULL column is false. `contains` is read as
      a plain substring test; the `%` and `_` wildcards of the LIKE pattern
      it becomes are not modelled. */
  predicate Holds(p: Pred, row: Row)
    decreases p
  {
    match p
    case Eq(f, v) => Column(row, f) == v
    case NotEq(f, v) =>
      if v == Null then Column(row, f) != Null
      else Column(row, f) != Null && Column(row, f) != v
    case Contains(f, t) => Column(row, f).Str? && IsInfix(t, Column(row, f).s)
    case In(f, vs) => Column(row, f) != Null && Column(row, f) in vs
    case And(qs) => forall i :: 0 <= i < |qs| ==> Holds(qs[i], row)
  }

  /** A record satisfies a list of criteria when it satisfies each of them. */
  predicate HoldsAll(ps: seq<Pred>, row: Row) {
    forall i :: 0 <= i < |ps| ==> Holds(ps[i], row)
  }
}
