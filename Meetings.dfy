/** The sales-meeting screen: a list of meetings kept with an add/edit
    modal. */
module Meetings {
  import opened Common
  import opened Entries

  datatype Meeting = Meeting(title: string, date: string, attendees: string, minutes: string)

  type MeetingEntry = Entry<Meeting>

  const InitialMeeting := Meeting("", "", "", "")

  /** The meeting list after `handleSubmit`: unchanged without a title or a
      date; otherwise the draft replaces the meetings with the edited id,
      under that id, or is appended under a fresh one. */
  function SubmitMeetings(meetings: seq<MeetingEntry>, draft: Meeting, editingMeetingId: Option<string>, freshId: string): (r: seq<MeetingEntry>)
    ensures draft.title == "" || draft.date == "" ==> r == meetings
    ensures draft.title != "" && draft.date != "" && Truthy(editingMeetingId) ==>
      |r| == |meetings| && forall i :: 0 <= i < |meetings| ==>
        r[i] == (if meetings[i].id == editingMeetingId.value then Entry(editingMeetingId.value, draft) else meetings[i])
    ensures draft.title != "" && draft.date != "" && !Truthy(editingMeetingId) ==>
      |r| == |meetings| + 1 && r[..|meetings|] == meetings && r[|meetings|] == Entry(freshId, draft)
  {
    if draft.title == "" || draft.date == "" then meetings
    else if Truthy(editingMeetingId) then Update(meetings, editingMeetingId.value, (_: Meeting) => draft)
    else meetings + [Entry(freshId, draft)]
  }

  /** Saving keeps ids unique, and keeps the set of ids or adds the fresh one. */
  lemma SubmitKeepsIdsUnique(meetings: seq<MeetingEntry>, draft: Meeting, editingMeetingId: Option<string>, freshId: string)
    requires UniqueIds(meetings) && freshId !in Ids(meetings)
    ensures UniqueIds(SubmitMeetings(meetings, draft, editingMeetingId, freshId))
    ensures Ids(SubmitMeetings(meetings, draft, editingMeetingId, freshId)) <= Ids(meetings) + {freshId}
  {
    if draft.title != "" && draft.date != "" {
      if Truthy(editingMeetingId) {
        UpdateKeepsIds(meetings, editingMeetingId.value, (_: Meeting) => draft);
      } else {
        AppendFresh(meetings, Entry(freshId, draft));
      }
    }
  }

  class MeetingsScreen {
    var meetings: seq<MeetingEntry>
    var isModalOpen: bool
    var currentMeeting: Meeting
    var editingMeetingId: Option<string>

    ghost predicate Valid()
      reads this
    {
      UniqueIds(meetings)
    }

    constructor(meetings: seq<MeetingEntry>)
      requires UniqueIds(meetings)
      ensures Valid() && this.meetings == meetings
      ensures !isModalOpen && currentMeeting == InitialMeeting && editingMeetingId == None
    {
      this.meetings := meetings;
      isModalOpen := false;
      currentMeeting := InitialMeeting;
      editingMeetingId := None;
    }

    method OpenAddModal()
      modifies this
      ensures editingMeetingId == None && currentMeeting == InitialMeeting && isModalOpen
      ensures meetings == old(meetings)
    {
      editingMeetingId := None;
      currentMeeting := InitialMeeting;
      isModalOpen := true;
    }

    method OpenEditModal(meeting: MeetingEntry)
      modifies this
      ensures editingMeetingId == Some(meeting.id) && currentMeeting == meeting.data && isModalOpen
      ensures meetings == old(meetings)
    {
      editingMeetingId := Some(meeting.id);
      currentMeeting := meeting.data;
      isModalOpen := true;
    }

    /** `handleSubmit`; `freshId` stands for `crypto.randomUUID()`. The modal
        closes only when the meeting was saved. */
    method HandleSubmit(freshId: string)
      requires Valid() && freshId !in Ids(meetings)
      modifies this
      ensures Valid()
      ensures meetings == SubmitMeetings(old(meetings), currentMeeting, editingMeetingId, freshId)
      ensures isModalOpen == (old(isModalOpen) && (currentMeeting.title == "" || currentMeeting.date == ""))
      ensures currentMeeting == old(currentMeeting) && editingMeetingId == old(editingMeetingId)
    {
      SubmitKeepsIdsUnique(meetings, currentMeeting, editingMeetingId, freshId);
      if currentMeeting.title == "" || currentMeeting.date == "" {
        return;
      }
      var draft := currentMeeting;
      if Truthy(editingMeetingId) {
        meetings := Update(meetings, editingMeetingId.value, (_: Meeting) => draft);
      } else {
        meetings := meetings + [Entry(freshId, draft)];
      }
      isModalOpen := false;
    }

    /** `handleDelete`: the meetings with that id go, the rest keep their order. */
    method HandleDelete(id: string)
      requires Valid()
      modifies this
      ensures Valid()
      ensures meetings == Without(old(meetings), {id})
      ensures isModalOpen == old(isModalOpen) && currentMeeting == old(currentMeeting) && editingMeetingId == old(editingMeetingId)
    {
      WithoutKeepsUnique(meetings, {id});
      meetings := Without(meetings, {id});
    }
  }
}
