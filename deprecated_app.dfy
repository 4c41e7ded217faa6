/** The earlier `AppSBI` (src/deprecated/app.rs): its cursor wraps around
    the instance list, the list is kept sorted by name with the selection
    following its instance, and input is ignored while the collection
    download task runs. Its `handle_message`, `create_instance`,
    `delete_current_instance` and launch operations are not part of this
    module: they differ from those of `App` (deletion without a current
    instance does nothing, creation re-sorts the list). */
module DeprecatedApp {
  import opened Wrappers
  import opened Text
  import Ui
  import I = Instances
  import opened Messages
  import opened TextAreas

  /** A spawned task; `finished` is set by the async runtime. */
  datatype TaskHandle = TaskHandle(finished: bool)

  // ---------------------------------------------------------------------------
  // The wrapping cursor
  // ---------------------------------------------------------------------------

  function WrapUp(index: nat, len: nat): nat {
    if index == 0 then Ui.Dec(len) else index - 1
  }

  /** `(index + 1) % len`; nothing happens on an empty list. */
  function WrapDown(index: nat, len: nat): nat {
    if len == 0 then index else (index + 1) % len
  }

  /** One step down from a position inside the list. */
  lemma WrapDownInside(index: nat, len: nat)
    requires index < len
    ensures WrapDown(index, len) == if index + 1 == len then 0 else index + 1
  {
  }

  /** Up from the first instance lands on the last and down from the last
      on the first; on a non-empty list down always lands on an instance,
      and up and down undo each other. */
  lemma WrapSpec(index: nat, len: nat)
    ensures len > 0 && index == 0 ==> WrapUp(index, len) == len - 1
    ensures len > 0 && index == len - 1 ==> WrapDown(index, len) == 0
    ensures len > 0 ==> WrapDown(index, len) < len
    ensures index < len ==> WrapUp(index, len) < len
    ensures index < len ==> WrapDown(WrapUp(index, len), len) == index && WrapUp(WrapDown(index, len), len) == index
    ensures len == 0 ==> WrapDown(index, len) == index && WrapUp(index, len) == Ui.Dec(index)
  {
    if index < len {
      WrapDownInside(index, len);
      WrapDownInside(WrapUp(index, len), len);
    }
  }

  // ---------------------------------------------------------------------------
  // Sorting by name and re-selecting
  // ---------------------------------------------------------------------------

  predicate SortedByName(s: seq<I.Instance>) {
    forall i, j :: 0 <= i < j < |s| ==> StrLe(s[i].Name(), s[j].Name())
  }

  /** Inserts `x` before the first instance whose name is not smaller, so
      before every instance of equal name (`InsertNamed`). */
  function Insert(x: I.Instance, s: seq<I.Instance>): (r: seq<I.Instance>)
    ensures multiset(r) == multiset(s) + multiset{x}
  {
    if s == [] || StrLe(x.Name(), s[0].Name()) then [x] + s
    else
      assert s == [s[0]] + s[1..];
      [s[0]] + Insert(x, s[1..])
  }

  /** Every name in `s` is at least `lo`. */
  predicate AllAtLeast(lo: string, s: seq<I.Instance>) {
    forall k :: 0 <= k < |s| ==> StrLe(lo, s[k].Name())
  }

  /** A sorted list stays sorted behind a head no greater than its names. */
  lemma SortedCons(h: I.Instance, t: seq<I.Instance>)
    requires SortedByName(t) && AllAtLeast(h.Name(), t)
    ensures SortedByName([h] + t)
  {
    var s := [h] + t;
    forall i, j | 0 <= i < j < |s|
      ensures StrLe(s[i].Name(), s[j].Name())
    {
      assert s[j] == t[j - 1];
      if i > 0 {
        assert s[i] == t[i - 1];
      }
    }
  }

  /** Inserting an element above a lower bound keeps every name above it. */
  lemma {:induction false} InsertAtLeast(lo: string, x: I.Instance, s: seq<I.Instance>)
    requires AllAtLeast(lo, s) && StrLe(lo, x.Name())
    ensures AllAtLeast(lo, Insert(x, s))
    decreases |s|
  {
    if s != [] && !StrLe(x.Name(), s[0].Name()) {
      var t := s[1..];
      assert AllAtLeast(lo, t) by {
        forall k | 0 <= k < |t| ensures StrLe(lo, t[k].Name()) {
          assert t[k] == s[k + 1];
        }
      }
      InsertAtLeast(lo, x, t);
      var r := [s[0]] + Insert(x, t);
      assert Insert(x, s) == r;
      forall k | 0 <= k < |r| ensures StrLe(lo, r[k].Name()) {
        if k > 0 {
          assert r[k] == Insert(x, t)[k - 1];
        }
      }
    } else {
      var r := [x] + s;
      forall k | 0 <= k < |r| ensures StrLe(lo, r[k].Name()) {
        if k > 0 {
          assert r[k] == s[k - 1];
        }
      }
    }
  }

  lemma {:induction false} InsertSorted(x: I.Instance, s: seq<I.Instance>)
    requires SortedByName(s)
    ensures SortedByName(Insert(x, s))
    decreases |s|
  {
    if s == [] {
      assert Insert(x, s) == [x];
    } else if StrLe(x.Name(), s[0].Name()) {
      forall k | 0 <= k < |s| ensures StrLe(x.Name(), s[k].Name()) {
        if k > 0 {
          StrLeTransitive(x.Name(), s[0].Name(), s[k].Name());
        }
      }
      SortedCons(x, s);
    } else {
      StrLeTotal(x.Name(), s[0].Name());
      var t := s[1..];
      assert SortedByName(t) && AllAtLeast(s[0].Name(), t) by {
        forall i, j | 0 <= i < j < |t| ensures StrLe(t[i].Name(), t[j].Name()) {
          assert t[i] == s[i + 1] && t[j] == s[j + 1];
        }
        forall k | 0 <= k < |t| ensures StrLe(s[0].Name(), t[k].Name()) {
          assert t[k] == s[k + 1];
        }
      }
      InsertSorted(x, t);
      InsertAtLeast(s[0].Name(), x, t);
      SortedCons(s[0], Insert(x, t));
      assert Insert(x, s) == [s[0]] + Insert(x, t);
    }
  }

  /** `sort_by(|a, b| a.name().cmp(b.name()))`, a stable sort
      (`SortByNameSpec`, `SortByNameStable`). */
  function SortByName(s: seq<I.Instance>): (r: seq<I.Instance>)
    ensures multiset(r) == multiset(s)
  {
    if s == [] then []
    else
      assert s == [s[0]] + s[1..];
      Insert(s[0], SortByName(s[1..]))
  }

  /** The result is sorted by name and holds exactly the given instances. */
  lemma {:induction false} SortByNameSpec(s: seq<I.Instance>)
    ensures SortedByName(SortByName(s))
    ensures multiset(SortByName(s)) == multiset(s) && |SortByName(s)| == |s|
  {
    if s != [] {
      SortByNameSpec(s[1..]);
      InsertSorted(s[0], SortByName(s[1..]));
    }
    assert |multiset(SortByName(s))| == |multiset(s)|;
  }

  /** The instances of `s` named `name`, in their order in `s`. */
  function Named(s: seq<I.Instance>, name: string): seq<I.Instance> {
    if s == [] then []
    else (if s[0].Name() == name then [s[0]] else []) + Named(s[1..], name)
  }

  /** `x` lands before every instance that shares its name. */
  lemma {:induction false} InsertNamed(x: I.Instance, s: seq<I.Instance>, name: string)
    ensures Named(Insert(x, s), name)
      == if x.Name() == name then [x] + Named(s, name) else Named(s, name)
  {
    if s == [] || StrLe(x.Name(), s[0].Name()) {
      assert ([x] + s)[1..] == s;
    } else {
      StrLeTotal(x.Name(), x.Name());
      InsertNamed(x, s[1..], name);
      assert ([s[0]] + Insert(x, s[1..]))[1..] == Insert(x, s[1..]);
    }
  }

  /** The sort is stable: instances with equal names keep their order. */
  lemma {:induction false} SortByNameStable(s: seq<I.Instance>, name: string)
    ensures Named(SortByName(s), name) == Named(s, name)
  {
    if s != [] {
      SortByNameStable(s[1..], name);
      InsertNamed(s[0], SortByName(s[1..]), name);
    }
  }

  /** `iter().position(|i| name == i.name())`. */
  function PositionOfName(s: seq<I.Instance>, name: string): (r: Option<nat>)
    ensures r.Some? ==> (r.value < |s| && s[r.value].Name() == name
      && forall j :: 0 <= j < r.value ==> s[j].Name() != name)
    ensures r.None? ==> forall j :: 0 <= j < |s| ==> s[j].Name() != name
  {
    if s == [] then None
    else if s[0].Name() == name then Some(0)
    else match PositionOfName(s[1..], name)
      case None => None
      case Some(i) => Some(i + 1)
  }

  /** `update_instances`: the new list sorted by name, and the cursor moved
      to the first instance named like the one it was on, if any. */
  function Reselect(instances: seq<I.Instance>, index: nat, scanned: seq<I.Instance>): (r: (seq<I.Instance>, nat))
  {
    var sorted := SortByName(scanned);
    if index < |instances| then
      match PositionOfName(sorted, instances[index].Name())
      case Some(i) => (sorted, i)
      case None => (sorted, index)
    else (sorted, index)
  }

  /** The list ends up sorted and is a permutation of what was read; the
      cursor stays on the previously selected name when it is still listed
      and does not move otherwise. */
  lemma ReselectSpec(instances: seq<I.Instance>, index: nat, scanned: seq<I.Instance>)
    ensures SortedByName(Reselect(instances, index, scanned).0)
    ensures multiset(Reselect(instances, index, scanned).0) == multiset(scanned)
    ensures index < |instances| && (exists j :: 0 <= j < |scanned| && scanned[j].Name() == instances[index].Name()) ==>
      var r := Reselect(instances, index, scanned);
      r.1 < |r.0| && r.0[r.1].Name() == instances[index].Name()
    ensures (index >= |instances| || forall j :: 0 <= j < |scanned| ==> scanned[j].Name() != instances[index].Name()) ==>
      Reselect(instances, index, scanned).1 == index
  {
    SortByNameSpec(scanned);
    var sorted := SortByName(scanned);
    if index < |instances| {
      var name := instances[index].Name();
      match PositionOfName(sorted, name)
      case Some(i) =>
        PermutationHas(sorted, scanned, i);
      case None =>
        forall j | 0 <= j < |scanned|
          ensures scanned[j].Name() != name
        {
          PermutationHas(scanned, sorted, j);
        }
    }
  }

  /** Every element of a list occurs in any permutation of it. */
  lemma PermutationHas(a: seq<I.Instance>, b: seq<I.Instance>, i: nat)
    requires multiset(a) == multiset(b) && i < |a|
    ensures exists k :: 0 <= k < |b| && b[k] == a[i]
  {
    assert a[i] in multiset(a);
    assert a[i] in b;
  }

  // ---------------------------------------------------------------------------
  // The application object
  // ---------------------------------------------------------------------------

  class DeprecatedAppSbi {
    var popup: Option<Popup>
    var instances: seq<I.Instance>
    var instanceIndex: nat
    var runningTask: Option<TaskHandle>
    var shouldQuit: bool

    ghost predicate PopupValid()
      reads this, if popup.Some? then popup.value.Objects() else {}
    {
      popup.Some? ==> popup.value.Valid()
    }

    constructor ()
      ensures popup == None && instances == [] && instanceIndex == 0
      ensures runningTask == None && !shouldQuit
    {
      popup := None;
      instances := [];
      instanceIndex := 0;
      runningTask := None;
      shouldQuit := false;
    }

    method Quit()
      modifies this
      ensures shouldQuit
      ensures popup == old(popup) && instances == old(instances) && instanceIndex == old(instanceIndex)
      ensures runningTask == old(runningTask)
    {
      shouldQuit := true;
    }

    function Instance(index: nat): (r: Option<I.Instance>)
      reads this
      ensures r.Some? <==> index < |instances|
      ensures r.Some? ==> r.value == instances[index]
    {
      if index < |instances| then Some(instances[index]) else None
    }

    method ScrollInstancesUp()
      modifies this
      ensures instanceIndex == WrapUp(old(instanceIndex), |instances|)
      ensures popup == old(popup) && instances == old(instances)
      ensures runningTask == old(runningTask) && shouldQuit == old(shouldQuit)
    {
      if instanceIndex == 0 {
        instanceIndex := Ui.Dec(|instances|);
      } else {
        instanceIndex := instanceIndex - 1;
      }
    }

    method ScrollInstancesDown()
      modifies this
      ensures instanceIndex == WrapDown(old(instanceIndex), |instances|)
      ensures popup == old(popup) && instances == old(instances)
      ensures runningTask == old(runningTask) && shouldQuit == old(shouldQuit)
    {
      if |instances| != 0 {
        instanceIndex := (instanceIndex + 1) % |instances|;
      }
    }

    method SetInstances(list: seq<I.Instance>)
      modifies this
      ensures instances == list && instanceIndex == old(instanceIndex)
      ensures popup == old(popup) && runningTask == old(runningTask) && shouldQuit == old(shouldQuit)
    {
      instances := list;
    }

    /** `update_instances` with the instances read from the directory. */
    method UpdateInstances(scanned: seq<I.Instance>)
      modifies this
      ensures (instances, instanceIndex) == Reselect(old(instances), old(instanceIndex), scanned)
      ensures popup == old(popup) && runningTask == old(runningTask) && shouldQuit == old(shouldQuit)
    {
      var current := Instance(instanceIndex);
      var name := if current.Some? then Some(current.value.Name()) else None;
      var sorted := SortByName(scanned);
      SetInstances(sorted);
      if name.Some? {
        var found := PositionOfName(instances, name.value);
        if found.Some? {
          instanceIndex := found.value;
        }
      }
    }

    predicate IsTaskRunning()
      reads this
    {
      runningTask.Some? && !runningTask.value.finished
    }

    /** `install_collection`: spawns the download of the instance under the
        cursor, which from then on blocks input until it finishes. */
    method InstallCollection()
      modifies this
      ensures instanceIndex < |instances| ==> runningTask == Some(TaskHandle(false)) && IsTaskRunning()
      ensures instanceIndex >= |instances| ==> runningTask == old(runningTask)
      ensures popup == old(popup) && instances == old(instances) && instanceIndex == old(instanceIndex)
      ensures shouldQuit == old(shouldQuit)
    {
      if Instance(instanceIndex).Some? {
        runningTask := Some(TaskHandle(false));
      }
    }

    /** `handle_events`. While a task runs the terminal is not even polled.
        Otherwise `polled` is the event the poll delivers, if any: with a
        popup open Esc cancels it and every other event goes to the popup;
        without one the home screen's key map `home` decides. */
    method HandleEvents(polled: Option<Ui.Event>, home: Ui.Event -> Option<AppMessage>,
                        nameIsValid: string -> bool, editName: TextEdit, edit: TextEdit)
      returns (r: Option<AppMessage>, didPoll: bool)
      requires PopupValid()
      requires popup.Some? && popup.value.ListSelectMenu? && polled.Some? && Ui.IsPress(polled.value, Ui.Down)
        ==> popup.value.list.items != []
      modifies if popup.Some? then popup.value.Objects() else {}
      ensures didPoll <==> !IsTaskRunning()
      ensures !didPoll ==> r.None?
      ensures didPoll && polled.None? ==> r.None?
      ensures didPoll && polled.Some? && popup.Some? && Ui.IsPress(polled.value, Ui.Esc) ==>
        r == Some(ClosePopupNoOp) && popup.value.State() == old(popup.value.State())
      ensures didPoll && polled.Some? && popup.Some? && !Ui.IsPress(polled.value, Ui.Esc) ==>
        (popup.value.State(), r) == Handled(old(popup.value.State()), polled.value, nameIsValid, editName, edit)
      ensures !(didPoll && polled.Some? && popup.Some?) && popup.Some? ==> popup.value.State() == old(popup.value.State())
      ensures didPoll && polled.Some? && popup.Some? ==> r.None? || r == Some(ClosePopup) || r == Some(ClosePopupNoOp)
      ensures didPoll && polled.Some? && popup.None? ==> r == home(polled.value)
      ensures PopupValid()
    {
      if IsTaskRunning() {
        return None, false;
      }
      didPoll := true;
      if polled.None? {
        return None, didPoll;
      }
      var e := polled.value;
      if popup.Some? {
        if Ui.IsPress(e, Ui.Esc) {
          return Some(ClosePopupNoOp), didPoll;
        }
        r := HandleEvent(popup.value, e, nameIsValid, editName, edit);
      } else {
        r := home(e);
      }
    }
  }
}
