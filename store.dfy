/** The front end's mutable state (`currentSheet`, `entries`, `editingId` and the month
    options of the selector) and the handlers that change it. Every backend answer is a
    parameter; a failed call changes no entry. */
module Store {
  import opened Wrappers
  import opened Months
  import opened Entries
  import opened Api
  import Summary

  const DeleteAlertPrefix: string := "Błąd usuwania: "
  const SaveAlertPrefix: string := "Błąd zapisu: "

  /** The entries a list call yields: its data on success, nothing on failure. */
  function ListedEntries(listed: Reply<seq<Entry>>): (r: seq<Entry>)
    ensures Unwrap(listed, GetError).Failure? ==> r == []
    ensures listed.Json? && listed.ok ==> r == listed.data
  {
    match Unwrap(listed, GetError)
    case Success(v) => v
    case Failure(_) => []
  }

  /** The months offered before de-duplication: the backend's list, or the fallback window. */
  function MonthCandidates(fetched: Reply<seq<string>>, now: Date): (r: seq<string>)
    ensures fetched.Json? && fetched.ok ==> r == fetched.data
    ensures Unwrap(fetched, GetError).Failure? ==> r == FallbackWindow(now)
  {
    match Unwrap(fetched, GetError)
    case Success(v) => v
    case Failure(_) => FallbackWindow(now)
  }

  /** Whatever the backend answers, the de-duplicated month list holds no key twice and every
      key it was given, and the default month (if any) is one of them; when the months call
      fails the list is the fallback window and the default is the current month. */
  lemma MonthListFacts(fetched: Reply<seq<string>>, now: Date)
    requires ValidDate(now)
    ensures var options := Dedup(MonthCandidates(fetched, now));
      var selected := DefaultMonth(options, SheetName(now.month, now.year));
      NoDuplicates(options) &&
      (forall k :: k in options <==> k in MonthCandidates(fetched, now)) &&
      (selected.Some? ==> selected.value in options) &&
      (Unwrap(fetched, GetError).Failure? ==>
        options == FallbackWindow(now) && selected == Some(SheetName(now.month, now.year)))
  {
    if Unwrap(fetched, GetError).Failure? {
      FallbackDefaultIsToday(now);
    }
  }

  /** The slot `entries[i] = saved` writes for an update of `id`: the first entry holding the
      id, or nothing when no entry does. */
  function ReplaceFirst(s: seq<Entry>, id: Id, saved: Entry): (r: seq<Entry>)
    ensures |r| == |s|
    ensures FindById(s, id) == -1 ==> r == s
    ensures FindById(s, id) >= 0 ==> r[FindById(s, id)] == saved
    ensures forall j :: 0 <= j < |s| && j != FindById(s, id) ==> r[j] == s[j]
  {
    var i := FindById(s, id);
    if i >= 0 then s[i := saved] else s
  }

  /** The options `loadMonths` manages to add: labelling an option reads the name's first
      character, which throws on an empty name, so the options stop before the first "". */
  function LabelledPrefix(uniq: seq<string>): (r: seq<string>)
    ensures r <= uniq && "" !in r
    ensures r == uniq <==> "" !in uniq
    ensures |r| < |uniq| ==> uniq[|r|] == ""
  {
    if "" in uniq then uniq[..FirstIndex(uniq, "")] else uniq
  }

  /** `monthSelect.value` after `monthSelect.value = v`: `v` when an option carries it,
      otherwise no option is selected and the value reads "". */
  function SelectValue(v: Option<string>, options: seq<string>): (r: string)
    ensures r == "" || r in options
    ensures v.Some? && v.value in options ==> r == v.value
    ensures !(v.Some? && v.value in options) ==> r == ""
  {
    if v.Some? && v.value in options then v.value else ""
  }

  /** `monthSelect.value` when options were added and none was chosen: the first option. */
  function DefaultSelection(options: seq<string>): (r: string)
    ensures r == "" <==> options == [] || options[0] == ""
    ensures options != [] ==> r == options[0]
  {
    if options == [] then "" else options[0]
  }

  /** An update writes the saved record in place and does not re-sort, so a changed date can
      leave the list out of date order (a create re-sorts, and a delete keeps the order). */
  lemma UpdateMayUnsort()
    ensures var s := [Entry(Some(1), "a", "1:00"), Entry(Some(2), "b", "1:00")];
      SortedByDate(s) && !SortedByDate(ReplaceFirst(s, 1, Entry(Some(1), "c", "1:00")))
  {
    var s := [Entry(Some(1), "a", "1:00"), Entry(Some(2), "b", "1:00")];
    var r := ReplaceFirst(s, 1, Entry(Some(1), "c", "1:00"));
    assert r[0].date == "c" && r[1].date == "b";
    assert !LexLe("c", "b");
  }

  class Session {
    var currentSheet: Option<string>
    var entries: seq<Entry>
    var editingId: Option<Id>
    /** The month selector: its options and its current value. */
    var options: seq<string>
    var selected: string

    /** The class invariant: the selector shows one of its options, or nothing. The
        constructor establishes it and every handler keeps it. */
    predicate Valid()
      reads this
    {
      selected == "" || selected in options
    }

    /** The state before `loadMonths` runs. */
    constructor ()
      ensures currentSheet == Some("") && entries == [] && editingId == None
      ensures options == [] && selected == "" && Valid()
    {
      currentSheet := Some("");
      entries := [];
      editingId := None;
      options := [];
      selected := "";
    }

    /** `loadEntriesFor`: switch to `sheet`, leave edit mode, and take the listed entries,
        or none when the list call fails. The selector is not touched. */
    method LoadEntriesFor(sheet: Option<string>, listed: Reply<seq<Entry>>)
      requires Valid()
      modifies this
      ensures Valid()
      ensures currentSheet == sheet && editingId == None
      ensures entries == ListedEntries(listed)
      ensures options == old(options) && selected == old(selected)
    {
      currentSheet := sheet;
      editingId := None;
      match Unwrap(listed, GetError)
      case Success(v) =>
        entries := v;
      case Failure(_) =>
        entries := [];
    }

    /** `loadMonths`: fill the selector from the backend's month list or, when that call fails,
        from the fallback window; drop repeats; select today's key if offered, else the last
        one; then load that month's entries. */
    method LoadMonths(fetched: Reply<seq<string>>, now: Date, listed: Reply<seq<Entry>>)
      requires ValidDate(now)
      modifies this
      ensures Valid()
      ensures ShowsMonths(Dedup(MonthCandidates(fetched, now)), SheetName(now.month, now.year), listed,
                          old(currentSheet), old(editingId), old(entries))
    {
      var months: seq<string>;
      match Unwrap(fetched, GetError) {
        case Success(v) =>
          months := v;
        case Failure(_) =>
          months := FallbackMonths(now);
      }
      ShowMonths(Dedup(months), SheetName(now.month, now.year), listed);
    }

    /** The state `loadMonths` leaves for the de-duplicated list `uniq`. An empty name in it
        aborts the handler while labelling options: the options added so far stay, the first
        of them is selected, and nothing else changes. Otherwise today's key or the last one
        becomes the current sheet, the selector shows it, and its entries are loaded. */
    predicate ShowsMonths(uniq: seq<string>, today: string, listed: Reply<seq<Entry>>,
                          sheet0: Option<string>, editing0: Option<Id>, entries0: seq<Entry>)
      reads this
    {
      options == LabelledPrefix(uniq) &&
      ("" !in uniq ==>
        currentSheet == DefaultMonth(uniq, today) &&
        selected == SelectValue(currentSheet, uniq) &&
        editingId == None && entries == ListedEntries(listed)) &&
      ("" in uniq ==>
        selected == DefaultSelection(options) &&
        currentSheet == sheet0 && editingId == editing0 && entries == entries0)
    }

    /** The part of `loadMonths` after the month list is known. */
    method ShowMonths(uniq: seq<string>, today: string, listed: Reply<seq<Entry>>)
      modifies this
      ensures Valid()
      ensures ShowsMonths(uniq, today, listed, old(currentSheet), old(editingId), old(entries))
    {
      var complete := AddOptions(uniq);
      if complete {
        currentSheet := DefaultMonth(uniq, today);
        selected := SelectValue(currentSheet, uniq);
        LoadEntriesFor(currentSheet, listed);
      } else {
        selected := DefaultSelection(options);
      }
    }

    /** The `uniq.forEach` loop of `loadMonths`: clear the selector and add one option per
        month, stopping (by the exception the label code throws) at an empty name. */
    method AddOptions(uniq: seq<string>) returns (complete: bool)
      modifies this
      ensures options == LabelledPrefix(uniq)
      ensures complete <==> "" !in uniq
      ensures currentSheet == old(currentSheet) && entries == old(entries)
      ensures editingId == old(editingId) && selected == old(selected)
    {
      options := [];
      var i := 0;
      while i < |uniq| && uniq[i] != ""
        invariant 0 <= i <= |uniq|
        invariant options == uniq[..i] && "" !in options
        invariant currentSheet == old(currentSheet) && entries == old(entries)
        invariant editingId == old(editingId) && selected == old(selected)
      {
        options := options + [uniq[i]];
        i := i + 1;
      }
      complete := i == |uniq|;
      if !complete {
        FirstIndexUnique(uniq, "", i);
      } else {
        assert options == uniq;
      }
    }

    /** The selector's change listener: the user picks one of the offered months. */
    method ChangeMonth(choice: string, listed: Reply<seq<Entry>>)
      requires choice in options
      modifies this
      ensures Valid()
      ensures selected == choice && currentSheet == Some(choice) && options == old(options)
      ensures editingId == None && entries == ListedEntries(listed)
    {
      selected := choice;
      LoadEntriesFor(Some(choice), listed);
    }

    /** The edit button: remember the entry's id (`None` leaves the form in create mode). */
    method BeginEdit(target: Entry)
      requires Valid()
      modifies this
      ensures Valid()
      ensures editingId == target.id
      ensures currentSheet == old(currentSheet) && entries == old(entries)
      ensures options == old(options) && selected == old(selected)
    {
      editingId := target.id;
    }

    /** The delete button of `target`: nothing unless confirmed; otherwise one delete request,
        and on success every entry with the target's id is removed; on failure an alert and
        no change. */
    method Delete(target: Entry, confirmed: bool, reply: Reply<()>)
      returns (sent: Option<Request>, alert: Option<string>)
      requires Valid()
      modifies this
      ensures Valid()
      ensures currentSheet == old(currentSheet) && editingId == old(editingId)
      ensures options == old(options) && selected == old(selected)
      ensures !confirmed ==> sent == None && alert == None && entries == old(entries)
      ensures confirmed ==> sent == Some(DeleteRequest(old(currentSheet), target.id))
      ensures confirmed && Unwrap(reply, DeleteError).Success? ==>
        alert == None && entries == WithoutId(old(entries), target.id)
      ensures confirmed && Unwrap(reply, DeleteError).Failure? ==>
        alert == Some(DeleteAlertPrefix + Unwrap(reply, DeleteError).error) && entries == old(entries)
    {
      if !confirmed {
        return None, None;
      }
      sent := Some(DeleteRequest(currentSheet, target.id));
      match Unwrap(reply, DeleteError)
      case Success(_) =>
        entries := WithoutId(entries, target.id);
        alert := None;
      case Failure(message) =>
        alert := Some(DeleteAlertPrefix + message);
    }

    /** The form's submit handler. Nothing happens without both a date and a duration. In edit
        mode one update request is sent and, on success, the first entry with the edited id is
        replaced by the saved record and edit mode ends; in create mode one create request is
        sent and, on success, the saved record is added and the list re-sorted by date. A
        failed call raises an alert and changes nothing. */
    method Submit(date: string, time: string, reply: Reply<Entry>)
      returns (sent: Option<Request>, alert: Option<string>)
      requires Valid()
      modifies this
      ensures Valid()
      ensures currentSheet == old(currentSheet) && options == old(options) && selected == old(selected)
      ensures date == "" || time == "" ==>
        sent == None && alert == None && entries == old(entries) && editingId == old(editingId)
      ensures date != "" && time != "" && old(editingId).Some? ==>
        var id := old(editingId).value;
        var result := Unwrap(reply, PutError);
        sent == Some(UpdateRequest(old(currentSheet), id, date, time)) &&
        (result.Success? ==>
          alert == None && editingId == None && entries == ReplaceFirst(old(entries), id, result.value)) &&
        (result.Failure? ==>
          alert == Some(SaveAlertPrefix + result.error) && editingId == old(editingId) && entries == old(entries))
      ensures date != "" && time != "" && old(editingId).None? ==>
        var result := Unwrap(reply, PostError);
        sent == Some(CreateRequest(old(currentSheet), date, time)) && editingId == None &&
        (result.Success? ==>
          alert == None && entries == SortByDate(old(entries) + [result.value])) &&
        (result.Failure? ==>
          alert == Some(SaveAlertPrefix + result.error) && entries == old(entries))
    {
      if date == "" || time == "" {
        return None, None;
      }
      if editingId.Some? {
        var id := editingId.value;
        sent := Some(UpdateRequest(currentSheet, id, date, time));
        match Unwrap(reply, PutError)
        case Success(saved) =>
          var i := FindById(entries, id);
          if i >= 0 {
            entries := entries[i := saved];
          }
          editingId := None;
          alert := None;
        case Failure(message) =>
          alert := Some(SaveAlertPrefix + message);
      } else {
        sent := Some(CreateRequest(currentSheet, date, time));
        match Unwrap(reply, PostError)
        case Success(saved) =>
          entries := SortByDate(entries + [saved]);
          alert := None;
        case Failure(message) =>
          alert := Some(SaveAlertPrefix + message);
      }
    }

    /** `renderSummary` over the current entries and the month the selector shows. */
    method RenderSummary(now: Date) returns (view: Summary.SummaryView)
      requires Valid()
      ensures view == Summary.Summarize(entries, selected, now)
    {
      view := Summary.RenderSummary(entries, selected, now);
    }
  }
}
