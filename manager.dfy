/** The auto-number manager: one drawing that owns every numbered label of a
    video, keeps them ordered by value, allocates the number of each new
    label and routes hit tests and moves to the selected label. */
module Manager {
  import opened Drawings
  import Numbering

  /** The values of the labels, in list order. */
  function Values(ns: seq<AutoNumber>): seq<int>
  {
    seq(|ns|, i requires 0 <= i < |ns| => ns[i].value)
  }

  /** The hit-test result of every label at a point and time, in list order. */
  function Probes(ns: seq<AutoNumber>, point: Point, time: int, probe: HitProbe): seq<int>
  {
    seq(|ns|, i requires 0 <= i < |ns| => probe(ns[i], point, time))
  }

  lemma ValuesInsert(ns: seq<AutoNumber>, p: nat, x: AutoNumber)
    requires p <= |ns|
    ensures Values(ns[..p] + [x] + ns[p..]) == Values(ns)[..p] + [x.value] + Values(ns)[p..]
  {
    var l, r := Values(ns[..p] + [x] + ns[p..]), Values(ns)[..p] + [x.value] + Values(ns)[p..];
    assert |l| == |r|;
    forall k | 0 <= k < |l|
      ensures l[k] == r[k]
    {
      if k < p {
        assert l[k] == ns[k].value;
      } else if k > p {
        assert l[k] == ns[k - 1].value;
      }
    }
  }

  lemma ValuesRemove(ns: seq<AutoNumber>, i: nat)
    requires i < |ns|
    ensures Values(ns[..i] + ns[i + 1..]) == Values(ns)[..i] + Values(ns)[i + 1..]
  {
    var l, r := Values(ns[..i] + ns[i + 1..]), Values(ns)[..i] + Values(ns)[i + 1..];
    assert |l| == |r|;
    forall k | 0 <= k < |l|
      ensures l[k] == r[k]
    {
      if k < i {
        assert l[k] == ns[k].value;
      } else {
        assert l[k] == ns[k + 1].value;
      }
    }
  }

  /** A label carrying the allocated value is new to labels strictly
      ascending by value, and inserting it at its insertion point keeps them
      strictly ascending: the allocate-then-insert step of placing a label. */
  lemma AllocatedInsertKeepsSorted(ns: seq<AutoNumber>, x: AutoNumber)
    requires Numbering.StrictlyAscending(Values(ns))
    requires x.value == Numbering.NextValue(Values(ns))
    ensures x.value !in Values(ns)
    ensures var p := Numbering.InsertionPoint(Values(ns), x.value);
      Numbering.StrictlyAscending(Values(ns[..p] + [x] + ns[p..]))
  {
    var vs := Values(ns);
    Numbering.NextValueFresh(vs);
    Numbering.InsertKeepsAscending(vs, x.value);
    ValuesInsert(ns, Numbering.InsertionPoint(vs, x.value), x);
  }

  /** Removing a label keeps the labels strictly ascending by value. */
  lemma RemoveKeepsSorted(ns: seq<AutoNumber>, x: AutoNumber)
    requires x in ns
    requires Numbering.StrictlyAscending(Values(ns))
    ensures Numbering.StrictlyAscending(Values(Numbering.RemoveFirst(ns, x)))
  {
    var i := Numbering.IndexOf(ns, x);
    Numbering.RemoveFirstAtIndex(ns, x);
    ValuesRemove(ns, i);
    Numbering.RemoveKeepsAscending(Values(ns), i);
  }

  lemma ValuesAppend(ns: seq<AutoNumber>, x: AutoNumber)
    ensures Values(ns + [x]) == Values(ns) + [x.value]
  {
    assert |Values(ns + [x])| == |Values(ns) + [x.value]|;
  }

  class AutoNumberManager {
    /** The labels, in list order. */
    var numbers: seq<AutoNumber>
    /** Index of the selected label, -1 when none is selected. */
    var selected: int

    /** The selection is a label of the list or none. */
    predicate Valid()
      reads this
    {
      -1 <= selected < |numbers|
    }

    /** The labels are strictly ascending by value, so no value repeats. */
    predicate Sorted()
      reads this
    {
      Numbering.StrictlyAscending(Values(numbers))
    }

    constructor ()
      ensures numbers == [] && selected == -1
    {
      numbers := [];
      selected := -1;
    }

    /** The selected label, or null when the selection is not an index of
        the list. */
    function SelectedItem(): (item: AutoNumber?)
      reads this
      ensures item != null <==> 0 <= selected < |numbers|
      ensures item != null ==> item == numbers[selected]
    {
      if 0 <= selected < |numbers| then numbers[selected] else null
    }

    /** The number of labels. */
    function Count(): (n: nat)
      reads this
      ensures n == |numbers|
    {
      |numbers|
    }

    /** Moves the selected label as a whole; nothing happens when no label
        is selected. The modifier keys are not consulted. */
    method MoveDrawing(dx: int, dy: int, modifiers: int)
      modifies if 0 <= selected < |numbers| then {numbers[selected]} else {}
      ensures 0 <= selected < |numbers| ==>
        numbers[selected].position == old(numbers[selected].position).Translated(dx, dy)
    {
      if 0 <= selected < |numbers| {
        numbers[selected].MouseMove(dx, dy);
      }
    }

    /** Moves the handle of the selected label to the point; nothing happens
        when no label is selected. The handle number and the modifier keys
        are not consulted: a label has a single handle. */
    method MoveHandle(point: Point, handleNumber: int, modifiers: int)
      modifies if 0 <= selected < |numbers| then {numbers[selected]} else {}
      ensures 0 <= selected < |numbers| ==> numbers[selected].position == point
    {
      if 0 <= selected < |numbers| {
        numbers[selected].MoveHandleTo(point);
      }
    }

    /** Hit-tests the labels in list order. The first label that is hit
        becomes the selected one and its result is returned; later labels
        are not tested. When none is hit the result is -1 and the selection
        stays as it was. */
    method HitTest(point: Point, time: int, probe: HitProbe) returns (handle: int)
      modifies this`selected
      ensures var k := Numbering.FirstHit(Probes(numbers, point, time, probe));
        k >= 0 ==> selected == k && handle == probe(numbers[k], point, time) && handle >= 0
      ensures var k := Numbering.FirstHit(Probes(numbers, point, time, probe));
        k == -1 ==> selected == old(selected) && handle == -1
      ensures old(Valid()) ==> Valid()
    {
      ghost var rs := Probes(numbers, point, time, probe);
      var i := 0;
      handle := -1;
      while i < |numbers|
        invariant 0 <= i <= |numbers|
        invariant selected == old(selected) && handle == -1
        invariant forall j :: 0 <= j < i ==> rs[j] < 0
      {
        handle := probe(numbers[i], point, time);
        assert rs[i] == handle;
        if handle >= 0 {
          assert Numbering.FirstHit(rs) == i;
          selected := i;
          break;
        }
        i := i + 1;
      }
    }

    /** Puts back a label on redo: appended at the end without sorting, and
        selected. A payload that is not a label (null) changes nothing. */
    method AddExisting(item: AutoNumber?)
      modifies this
      ensures item == null ==> numbers == old(numbers) && selected == old(selected)
      ensures item != null ==> numbers == old(numbers) + [item] && selected == |numbers| - 1
      ensures old(Valid()) ==> Valid()
      ensures old(Sorted()) && (item != null ==> old(numbers) == [] || old(numbers[|numbers| - 1].value) < item.value)
        ==> Sorted()
    {
      if item == null {
        return;
      }
      ValuesAppend(numbers, item);
      if Sorted() && (numbers == [] || numbers[|numbers| - 1].value < item.value) {
        Numbering.AppendKeepsAscending(Values(numbers), item.value);
      }
      numbers := numbers + [item];
      selected := |numbers| - 1;
    }

    /** Removes the first occurrence of the label and clears the selection,
        whether or not the label was in the list. A payload that is not a
        label (null) changes nothing. */
    method Remove(item: AutoNumber?)
      modifies this
      ensures item == null ==> numbers == old(numbers) && selected == old(selected)
      ensures item != null ==> numbers == Numbering.RemoveFirst<AutoNumber>(old(numbers), item)
      ensures item != null ==> selected == -1 && SelectedItem() == null
      ensures old(Valid()) ==> Valid()
      ensures old(Sorted()) ==> Sorted()
    {
      if item == null {
        return;
      }
      if item in numbers && Sorted() {
        RemoveKeepsSorted(numbers, item);
      }
      numbers := Numbering.RemoveFirst<AutoNumber>(numbers, item);
      selected := -1;
    }

    /** Removes every label and clears the selection. */
    method Clear()
      modifies this
      ensures numbers == [] && selected == -1
      ensures Valid() && Sorted() && SelectedItem() == null
    {
      numbers := [];
      selected := -1;
    }

    /** Places a new label at the point: it gets the next value, is inserted
        in value order and becomes the selected label. On a strictly
        ascending list the value is one the list does not hold yet and the
        list stays strictly ascending. */
    method Add(point: Point, position: int, averageTimeStampsPerFrame: int)
      modifies this
      ensures Valid() && 0 <= selected < |numbers|
      ensures Count() == old(Count()) + 1
      ensures fresh(numbers[selected])
      ensures numbers[selected].value == Numbering.NextValue(old(Values(numbers)))
      ensures numbers[selected].position == point && numbers[selected].placedAt == position
      ensures numbers[selected].averageTimeStampsPerFrame == averageTimeStampsPerFrame
      ensures selected == Numbering.InsertionPoint(old(Values(numbers)), numbers[selected].value)
      ensures numbers == old(numbers)[..selected] + [numbers[selected]] + old(numbers)[selected..]
      ensures old(Sorted()) ==> numbers[selected].value !in old(Values(numbers)) && Sorted()
    {
      var nextValue := NextValue(position);
      var number := new AutoNumber(position, averageTimeStampsPerFrame, point, nextValue);
      if Sorted() {
        AllocatedInsertKeepsSorted(numbers, number);
      }
      selected := InsertSorted(number);
    }

    /** The value for a new label: 1 on an empty list, otherwise the one
        chosen over the whole video. The time position is not consulted. */
    method NextValue(position: int) returns (v: int)
      ensures v == Numbering.NextValue(Values(numbers))
    {
      if |numbers| == 0 {
        return 1;
      }
      v := NextValueVideo(position);
    }

    /** The value that fills the first hole, or one more than the last value
        when there is no hole. */
    method NextValueVideo(position: int) returns (v: int)
      requires |numbers| > 0
      ensures v == Numbering.NextValue(Values(numbers))
    {
      var holeIndex := FindFirstHole();
      if holeIndex >= 0 {
        return holeIndex;
      }
      return numbers[|numbers| - 1].value + 1;
    }

    /** The value missing at the first position i whose value exceeds i + 1,
        or -1 when there is no such position. */
    method FindFirstHole() returns (hole: int)
      ensures hole == Numbering.FirstHole(Values(numbers))
    {
      var i := 0;
      while i < |numbers|
        invariant 0 <= i <= |numbers|
        invariant forall k :: 0 <= k < i ==> Values(numbers)[k] <= k + 1
      {
        if numbers[i].value > i + 1 {
          assert Values(numbers)[i] > i + 1;
          return i + 1;
        }
        i := i + 1;
      }
      return -1;
    }

    /** Inserts the label before the first label with a strictly greater
        value, or appends it, and returns the index it now has. */
    method InsertSorted(item: AutoNumber) returns (index: int)
      modifies this`numbers
      ensures index == Numbering.InsertionPoint(Values(old(numbers)), item.value)
      ensures numbers == old(numbers)[..index] + [item] + old(numbers)[index..]
      ensures numbers[index] == item
    {
      var i := 0;
      while i < |numbers|
        invariant 0 <= i <= |numbers|
        invariant numbers == old(numbers)
        invariant forall j :: 0 <= j < i ==> Values(numbers)[j] <= item.value
      {
        if numbers[i].value > item.value {
          assert Values(numbers)[i] > item.value;
          numbers := numbers[..i] + [item] + numbers[i..];
          return i;
        }
        i := i + 1;
      }
      numbers := numbers + [item];
      return |numbers| - 1;
    }
  }
}
