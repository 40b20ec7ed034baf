/** The voting page's single-choice checkbox state: the selected entry id and
    the three checkbox states shown next to the fixed rows. */
module VoteForm {
  import opened Common

  datatype Row = Row(checked: bool, id: int, url: string, title: string, description: string)

  /** The page's fixed table of candidates. */
  const Rows: seq<Row> := [
    Row(false, 2, "https://www.youtube.com/embed/LzFD9yFi7PY?si=5Llior76kErIzi3w",
        "Smooth Mcgroove", "some good music"),
    Row(false, 3, "https://www.youtube.com/embed/mKzg_ZdDSRc?si=KYsuMdo0X_uTj6PE",
        "Tyler The Creator", "dat rap"),
    Row(false, 4, "https://www.youtube.com/embed/ulLI9MtkA-s?si=lAUr5SJnoA5-M6ja",
        "BlueCoats", "Tilt is the best of all time. come at me")
  ]

  /** The box a selected id checks: the first for id 2, the second for id 3,
      the third for every other id. */
  function SlotOf(id: int): (slot: nat)
    ensures slot < 3
  {
    if id == 2 then 0 else if id == 3 then 1 else 2
  }

  /** The checkbox states that go with a selection. */
  function CheckedFor(voteId: Option<int>): (boxes: seq<bool>)
    ensures |boxes| == 3
    ensures forall i :: 0 <= i < 3 ==> (boxes[i] <==> voteId.Some? && i == SlotOf(voteId.value))
  {
    if voteId.None? then [false, false, false]
    else if voteId.value == 2 then [true, false, false]
    else if voteId.value == 3 then [false, true, false]
    else [false, false, true]
  }

  predicate AtMostOne(boxes: seq<bool>) {
    forall i, j :: 0 <= i < j < |boxes| ==> !(boxes[i] && boxes[j])
  }

  /** At most one box is ever checked. */
  lemma CheckedForAtMostOne(voteId: Option<int>)
    ensures AtMostOne(CheckedFor(voteId))
  {
  }

  predicate IsRowId(id: int) {
    exists i :: 0 <= i < |Rows| && Rows[i].id == id
  }

  /** For a selection taken from the rows, the box in row `i` is checked
      exactly when row `i` is the selected one. */
  lemma RowsAgree(voteId: Option<int>)
    requires voteId.None? || IsRowId(voteId.value)
    ensures forall i :: 0 <= i < |Rows| ==> (CheckedFor(voteId)[i] <==> voteId == Some(Rows[i].id))
  {
    assert Rows[0].id == 2 && Rows[1].id == 3 && Rows[2].id == 4;
  }

  /** An id outside the rows still checks the third box, although the third
      row's id is 4. */
  lemma ForeignIdChecksThird(id: int)
    requires id != 2 && id != 3
    ensures CheckedFor(Some(id)) == [false, false, true]
    ensures id != 4 ==> CheckedFor(Some(id))[2] && Some(id) != Some(Rows[2].id)
  {
  }

  class Form {
    var voteId: Option<int>
    var voteChecked: seq<bool>

    /** The boxes always show the selection. */
    ghost predicate Valid()
      reads this
    {
      voteChecked == CheckedFor(voteId)
    }

    constructor ()
      ensures Valid()
      ensures voteId == None && voteChecked == [false, false, false]
    {
      voteId := None;
      voteChecked := [false, false, false];
    }

    /** `handleVote`: checking a box while another entry is selected is
        ignored; checking one otherwise selects its entry; unchecking any box
        clears the selection. */
    method HandleVote(checked: bool, entryId: int)
      requires Valid()
      modifies this
      ensures Valid()
      ensures checked && old(voteId).Some? && entryId != old(voteId).value ==>
                voteId == old(voteId) && voteChecked == old(voteChecked)
      ensures checked && (old(voteId).None? || entryId == old(voteId).value) ==>
                voteId == Some(entryId)
                && forall i :: 0 <= i < 3 ==> (voteChecked[i] <==> i == SlotOf(entryId))
      ensures !checked ==> voteId == None && voteChecked == [false, false, false]
    {
      if checked && voteId.Some? && entryId != voteId.value {
        return;
      }
      if checked {
        voteId := Some(entryId);
        if entryId == 2 {
          voteChecked := [true, false, false];
        } else if entryId == 3 {
          voteChecked := [false, true, false];
        } else {
          voteChecked := [false, false, true];
        }
      } else {
        voteId := None;
        voteChecked := [false, false, false];
      }
    }
  }

  /** Firing handlers only with ids from the rows keeps the selection among
      the rows, so each box is checked exactly when its row is selected. */
  method VoteOnRows(form: Form, checked: bool, entryId: int)
    requires form.Valid()
    requires form.voteId.None? || IsRowId(form.voteId.value)
    requires IsRowId(entryId)
    modifies form
    ensures form.Valid()
    ensures form.voteId.None? || IsRowId(form.voteId.value)
    ensures forall i :: 0 <= i < |Rows| ==> (form.voteChecked[i] <==> form.voteId == Some(Rows[i].id))
    ensures AtMostOne(form.voteChecked)
  {
    form.HandleVote(checked, entryId);
    RowsAgree(form.voteId);
    CheckedForAtMostOne(form.voteId);
  }
}
