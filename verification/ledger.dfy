/**
 The calculator's state and its three handlers: the draft being typed (five
 text fields) and the ordered list of recorded positions. Each handler is a
 pure transition from one state to the next.
 */
module Ledger {
  import opened Numbers
  import opened Metrics

  /** The `name` of one of the five inputs of the form. */
  datatype Field = Symbol | EntryPrice | StopLoss | TargetPrice | Quantity

  /** The position being typed, as the text of its five inputs. */
  datatype Draft = Draft(symbol: string, entryPrice: string, stopLoss: string, targetPrice: string, quantity: string)
  {
    /** The text of the input called `name`. */
    function Get(name: Field): string
    {
      match name
      case Symbol => symbol
      case EntryPrice => entryPrice
      case StopLoss => stopLoss
      case TargetPrice => targetPrice
      case Quantity => quantity
    }
  }

  /** The draft the form starts with and returns to after a position is added. */
  const EmptyDraft := Draft("", "", "", "", "")

  /** A draft is determined by the text of its five inputs. */
  lemma DraftExtensionality(d: Draft, e: Draft)
    requires forall name :: d.Get(name) == e.Get(name)
    ensures d == e
  {
    assert d.Get(Symbol) == e.Get(Symbol);
    assert d.Get(EntryPrice) == e.Get(EntryPrice);
    assert d.Get(StopLoss) == e.Get(StopLoss);
    assert d.Get(TargetPrice) == e.Get(TargetPrice);
    assert d.Get(Quantity) == e.Get(Quantity);
  }

  /** Every field is truthy, that is, non-empty. */
  predicate Complete(d: Draft)
  {
    d.symbol != "" && d.entryPrice != "" && d.stopLoss != "" && d.targetPrice != "" && d.quantity != ""
  }

  /** Complete means that no input is left empty. */
  lemma CompleteMeansNoEmptyField(d: Draft)
    ensures Complete(d) <==> forall name :: d.Get(name) != ""
  {
    if !Complete(d) {
      if d.symbol == "" { assert d.Get(Symbol) == ""; }
      else if d.entryPrice == "" { assert d.Get(EntryPrice) == ""; }
      else if d.stopLoss == "" { assert d.Get(StopLoss) == ""; }
      else if d.targetPrice == "" { assert d.Get(TargetPrice) == ""; }
      else { assert d.Get(Quantity) == ""; }
    }
  }

  /** The conversion of input text to numbers: `parseFloat` for the three
      prices, `parseInt` for the quantity. */
  datatype Parser = Parser(price: string -> real, count: string -> int)

  /** A recorded position: the text of the draft it was made from together
      with the five metrics computed from that text. */
  datatype Position = Position(
    entered: Draft,
    riskReward: Fixed2,
    riskPercentage: Fixed2,
    rewardPercentage: Fixed2,
    riskAmount: real,
    rewardAmount: real)

  /** The metrics of `r` are those of the numbers its entered text parses to. */
  predicate Describes(r: Position, parse: Parser)
  {
    var entry := parse.price(r.entered.entryPrice);
    var stop := parse.price(r.entered.stopLoss);
    var target := parse.price(r.entered.targetPrice);
    var quantity := parse.count(r.entered.quantity);
    && r.riskReward == RiskReward(entry, stop, target)
    && r.riskPercentage == RiskPercentage(entry, stop)
    && r.rewardPercentage == RewardPercentage(entry, target)
    && r.riskAmount == RiskAmount(entry, stop, quantity)
    && r.rewardAmount == RewardAmount(entry, target, quantity)
  }

  /** The record the form builds from a draft. */
  function MakePosition(d: Draft, parse: Parser): (r: Position)
    ensures r.entered == d
    ensures Describes(r, parse)
  {
    var entry := parse.price(d.entryPrice);
    var stop := parse.price(d.stopLoss);
    var target := parse.price(d.targetPrice);
    var quantity := parse.count(d.quantity);
    Position(
      d,
      RiskReward(entry, stop, target),
      RiskPercentage(entry, stop),
      RewardPercentage(entry, target),
      RiskAmount(entry, stop, quantity),
      RewardAmount(entry, target, quantity))
  }

  /** The state of the form: the draft and the recorded positions in the
      order they were added. */
  datatype State = State(draft: Draft, positions: seq<Position>)

  const Initial := State(EmptyDraft, [])

  /** `handleInputChange`: the input called `name` now holds `value`. */
  function InputChange(s: State, name: Field, value: string): (s': State)
    ensures s'.draft.Get(name) == value
    ensures forall other :: other != name ==> s'.draft.Get(other) == s.draft.Get(other)
    ensures s'.positions == s.positions
  {
    var d := s.draft;
    var d' := match name
      case Symbol => d.(symbol := value)
      case EntryPrice => d.(entryPrice := value)
      case StopLoss => d.(stopLoss := value)
      case TargetPrice => d.(targetPrice := value)
      case Quantity => d.(quantity := value);
    State(d', s.positions)
  }

  /** The contract of InputChange leaves no freedom: a state that has the
      new value in the named input, the old text in the other four and the
      same positions is the one InputChange produces. */
  lemma InputChangeDetermined(s: State, name: Field, value: string, t: State)
    requires t.draft.Get(name) == value
    requires forall other :: other != name ==> t.draft.Get(other) == s.draft.Get(other)
    requires t.positions == s.positions
    ensures t == InputChange(s, name, value)
  {
    DraftExtensionality(t.draft, InputChange(s, name, value).draft);
  }

  /** Typing a field's old text back undoes an edit of that field. */
  lemma InputChangeUndo(s: State, name: Field, value: string)
    ensures InputChange(InputChange(s, name, value), name, s.draft.Get(name)) == s
  {
  }

  /** Of two edits of the same field only the last one counts. */
  lemma InputChangeLastWins(s: State, name: Field, first: string, second: string)
    ensures InputChange(InputChange(s, name, first), name, second) == InputChange(s, name, second)
  {
  }

  /** Edits of two different fields can be made in either order. */
  lemma InputChangeCommutes(s: State, a: Field, u: string, b: Field, v: string)
    requires a != b
    ensures InputChange(InputChange(s, a, u), b, v) == InputChange(InputChange(s, b, v), a, u)
  {
  }

  /** `handleAddPosition`: with an empty field nothing happens; otherwise the
      position made from the draft goes to the end of the list and the draft
      is cleared. */
  function AddPosition(s: State, parse: Parser): (s': State)
    ensures !Complete(s.draft) ==> s' == s
    ensures (exists name :: s.draft.Get(name) == "") ==> s' == s
    ensures Complete(s.draft) ==> |s'.positions| == |s.positions| + 1
    ensures Complete(s.draft) ==> s'.positions[..|s.positions|] == s.positions
    ensures Complete(s.draft) ==> s'.positions[|s.positions|].entered == s.draft
    ensures Complete(s.draft) ==> Describes(s'.positions[|s.positions|], parse)
    ensures Complete(s.draft) ==> s'.draft == EmptyDraft
  {
    CompleteMeansNoEmptyField(s.draft);
    if !Complete(s.draft) then s
    else State(EmptyDraft, s.positions + [MakePosition(s.draft, parse)])
  }

  /** Pressing "Add Position" twice adds at most one position: the first
      press either does nothing or leaves an empty draft behind. */
  lemma AddPositionTwice(s: State, parse: Parser)
    ensures AddPosition(AddPosition(s, parse), parse) == AddPosition(s, parse)
  {
  }

  /** The elements of `xs` whose position differs from `index`, where
      `xs[0]` stands at position `first`: the filter
      `(_, i) => i !== index` applied left to right. */
  function KeepOthers<T>(xs: seq<T>, index: int, first: int): (r: seq<T>)
    ensures |xs| - 1 <= |r| <= |xs|
    ensures forall y :: y in r ==> y in xs
    ensures !(first <= index < first + |xs|) ==> r == xs
    decreases |xs|
  {
    if xs == [] then []
    else
      assert xs == [xs[0]] + xs[1..];
      (if first != index then [xs[0]] else []) + KeepOthers(xs[1..], index, first + 1)
  }

  /** The filter cuts out the element at `index` when there is one there,
      and keeps everything otherwise. */
  lemma {:induction false} KeepOthersSplice<T>(xs: seq<T>, index: int, first: int)
    ensures first <= index < first + |xs| ==>
      KeepOthers(xs, index, first) == xs[..index - first] + xs[index - first + 1..]
    ensures !(first <= index < first + |xs|) ==> KeepOthers(xs, index, first) == xs
    decreases |xs|
  {
    if xs != [] {
      var rest := KeepOthers(xs[1..], index, first + 1);
      assert KeepOthers(xs, index, first) == (if first != index then [xs[0]] else []) + rest;
      KeepOthersSplice(xs[1..], index, first + 1);
      if first == index {
        assert xs[..0] + xs[1..] == xs[1..];
      } else if first < index < first + |xs| {
        var k := index - first;
        assert rest == xs[1..][..k - 1] + xs[1..][k..];
        assert xs[1..][k..] == xs[k + 1..];
        assert [xs[0]] + xs[1..][..k - 1] == xs[..k];
      } else {
        assert rest == xs[1..];
        assert [xs[0]] + xs[1..] == xs;
      }
    }
  }

  /** A list is the part before position `i`, the element at `i` and the
      part after it. */
  lemma SplitAt<T>(xs: seq<T>, i: int)
    ensures 0 <= i < |xs| ==> xs == xs[..i] + [xs[i]] + xs[i + 1..]
  {
  }

  /** Removing position `index` from a list, by the filter the form uses. */
  function Remove<T>(xs: seq<T>, index: int): (r: seq<T>)
    ensures 0 <= index < |xs| ==> |r| == |xs| - 1
    ensures 0 <= index < |xs| ==> r[..index] == xs[..index]
    ensures 0 <= index < |xs| ==> forall i :: index <= i < |r| ==> r[i] == xs[i + 1]
    ensures 0 <= index < |xs| ==> multiset(r) + multiset{xs[index]} == multiset(xs)
    ensures !(0 <= index < |xs|) ==> r == xs
  {
    KeepOthersSplice(xs, index, 0);
    SplitAt(xs, index);
    KeepOthers(xs, index, 0)
  }

  /** `handleDelete`: the position at `index` leaves the list (later ones
      move down by one); any other index leaves the list as it is. */
  function Delete(s: State, index: int): (s': State)
    ensures s'.draft == s.draft
    ensures 0 <= index < |s.positions| ==> |s'.positions| == |s.positions| - 1
    ensures 0 <= index < |s.positions| ==> s'.positions[..index] == s.positions[..index]
    ensures 0 <= index < |s.positions| ==>
      forall i :: index <= i < |s'.positions| ==> s'.positions[i] == s.positions[i + 1]
    ensures !(0 <= index < |s.positions|) ==> s' == s
  {
    State(s.draft, Remove(s.positions, index))
  }

  /** Deleting the position just added restores the list it was added to. */
  lemma DeleteUndoesAdd(s: State, parse: Parser)
    ensures Delete(AddPosition(s, parse), |s.positions|).positions == s.positions
  {
  }
}
