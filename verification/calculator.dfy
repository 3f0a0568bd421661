/**
 The calculator as a whole: the user acts on the form one event at a time
 (typing into an input, pressing "Add Position", pressing a row's delete
 button), and every recorded position stays consistent with the text it was
 made from.
 */
module Calculator {
  import opened Ledger

  /** One user action on the form. */
  datatype Event = Edit(name: Field, value: string) | Add | DeleteRow(index: int)

  /** The handler an event is wired to, applied to the current state. */
  function Step(s: State, e: Event, parse: Parser): (s': State)
    ensures e.Edit? ==> s'.positions == s.positions
    ensures e.DeleteRow? ==> s'.draft == s.draft
    ensures e.Add? && !Complete(s.draft) ==> s' == s
    ensures |s'.positions| <= |s.positions| + 1
  {
    match e
    case Edit(name, value) => InputChange(s, name, value)
    case Add => AddPosition(s, parse)
    case DeleteRow(index) => Delete(s, index)
  }

  /** The state after a sequence of events, from first to last. */
  function Run(s: State, events: seq<Event>, parse: Parser): State
    decreases |events|
  {
    if events == [] then s
    else Run(Step(s, events[0], parse), events[1..], parse)
  }

  /** A position the form could have recorded: none of its inputs was empty
      and its metrics are those of its entered text. */
  predicate Recorded(r: Position, parse: Parser)
  {
    Complete(r.entered) && Describes(r, parse)
  }

  /** Every position in the list is one the form could have recorded. */
  predicate Consistent(s: State, parse: Parser)
  {
    forall i :: 0 <= i < |s.positions| ==> Recorded(s.positions[i], parse)
  }

  /** Each handler keeps every listed position consistent. */
  lemma StepKeepsConsistent(s: State, e: Event, parse: Parser)
    requires Consistent(s, parse)
    ensures Consistent(Step(s, e, parse), parse)
  {
  }

  /** From a consistent state, any sequence of user actions leads to a
      consistent state; in particular every list the form ever shows holds
      only positions built from complete drafts. */
  lemma {:induction false} RunKeepsConsistent(s: State, events: seq<Event>, parse: Parser)
    requires Consistent(s, parse)
    ensures Consistent(Run(s, events, parse), parse)
    decreases |events|
  {
    if events != [] {
      StepKeepsConsistent(s, events[0], parse);
      RunKeepsConsistent(Step(s, events[0], parse), events[1..], parse);
    }
  }

  /** The form starts with an empty draft and no positions, so every list it
      ever shows holds only positions built from complete drafts and carrying
      the metrics of their own text. */
  lemma RunFromInitialConsistent(events: seq<Event>, parse: Parser)
    ensures Consistent(Run(Initial, events, parse), parse)
  {
    RunKeepsConsistent(Initial, events, parse);
  }

  /** The list never holds more positions than there were presses of
      "Add Position". */
  lemma {:induction false} RunAddsAtMostOnePerPress(s: State, events: seq<Event>, parse: Parser)
    ensures |Run(s, events, parse).positions| <= |s.positions| + AddCount(events)
    decreases |events|
  {
    if events != [] {
      var s' := Step(s, events[0], parse);
      RunAddsAtMostOnePerPress(s', events[1..], parse);
      assert events == [events[0]] + events[1..];
      if !events[0].Add? {
        assert |s'.positions| <= |s.positions|;
      }
    }
  }

  /** The number of presses of "Add Position" among `events`. */
  function AddCount(events: seq<Event>): nat
    decreases |events|
  {
    if events == [] then 0
    else (if events[0].Add? then 1 else 0) + AddCount(events[1..])
  }
}
