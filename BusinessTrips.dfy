/** The business-trip screen. A trip is planned through a form (destination,
    dates, purpose) and completed by filing a report; the list of trips, the
    form, the report draft and the id being edited are the screen's state. */
module BusinessTrips {
  import opened Common
  import opened Entries

  datatype Status = Planned | Completed

  /** The report filed after a trip. The expenses are carried, never computed on. */
  datatype TripReport = TripReport(content: string, achievements: string, issues: string, expenses: real)

  datatype Trip = Trip(destination: string, startDate: string, endDate: string, purpose: string,
                       status: Status, report: Option<TripReport>)

  /** The four fields the trip form edits. */
  datatype TripForm = TripForm(destination: string, startDate: string, endDate: string, purpose: string)

  type TripEntry = Entry<Trip>

  const InitialTrip := TripForm("", "", "", "")
  const InitialReport := TripReport("", "", "", 0.0)

  /** `{ ...t, ...currentTrip }`: the form's four fields over the trip. */
  function WithForm(t: Trip, form: TripForm): Trip {
    t.(destination := form.destination, startDate := form.startDate, endDate := form.endDate, purpose := form.purpose)
  }

  /** `{ ...t, report, status: 'Completed' }`. */
  function WithReport(t: Trip, report: TripReport): Trip {
    t.(report := Some(report), status := Completed)
  }

  /** The form may be saved only when destination and both dates are filled in. */
  predicate Complete(form: TripForm) {
    form.destination != "" && form.startDate != "" && form.endDate != ""
  }

  /** The trip list after `handleSubmit`. */
  function SubmitTrips(trips: seq<TripEntry>, form: TripForm, editingTripId: Option<string>, freshId: string): (r: seq<TripEntry>)
    ensures !Complete(form) ==> r == trips
    ensures Complete(form) && Truthy(editingTripId) ==> |r| == |trips| && forall i :: 0 <= i < |trips| ==>
      r[i].id == trips[i].id
      && r[i].data.status == trips[i].data.status
      && r[i].data.report == trips[i].data.report
      && (trips[i].id == editingTripId.value ==> r[i].data == WithForm(trips[i].data, form))
      && (trips[i].id != editingTripId.value ==> r[i] == trips[i])
    ensures Complete(form) && !Truthy(editingTripId) ==>
      |r| == |trips| + 1 && r[..|trips|] == trips
      && r[|trips|] == Entry(freshId, Trip(form.destination, form.startDate, form.endDate, form.purpose, Planned, None))
  {
    if !Complete(form) then trips
    else if Truthy(editingTripId) then Update(trips, editingTripId.value, (t: Trip) => WithForm(t, form))
    else trips + [Entry(freshId, Trip(form.destination, form.startDate, form.endDate, form.purpose, Planned, None))]
  }

  /** The trip list after `handleReportSubmit`. */
  function ReportTrips(trips: seq<TripEntry>, report: TripReport, editingTripId: Option<string>): (r: seq<TripEntry>)
    ensures !Truthy(editingTripId) ==> r == trips
    ensures Truthy(editingTripId) ==> |r| == |trips| && forall i :: 0 <= i < |trips| ==>
      r[i].id == trips[i].id
      && (trips[i].id == editingTripId.value ==>
            (r[i].data.status == Completed && r[i].data.report == Some(report)
             && r[i].data.(status := trips[i].data.status, report := trips[i].data.report) == trips[i].data))
      && (trips[i].id != editingTripId.value ==> r[i] == trips[i])
  {
    if !Truthy(editingTripId) then trips
    else Update(trips, editingTripId.value, (t: Trip) => WithReport(t, report))
  }

  /** A trip that was completed is still completed afterwards: every entry of
      `after` whose id belonged to a completed trip of `before` is completed. */
  ghost predicate NoneReopened(before: seq<TripEntry>, after: seq<TripEntry>) {
    forall i, j :: 0 <= i < |before| && 0 <= j < |after| && before[i].id == after[j].id && before[i].data.status == Completed
      ==> after[j].data.status == Completed
  }

  /** No handler moves a trip from Completed back to Planned. Saving the
      form keeps the status of an edited trip, and an added trip carries a
      fresh id. */
  lemma SubmitKeepsCompleted(trips: seq<TripEntry>, form: TripForm, editingTripId: Option<string>, freshId: string)
    requires UniqueIds(trips) && freshId !in Ids(trips)
    ensures NoneReopened(trips, SubmitTrips(trips, form, editingTripId, freshId))
  {
  }

  /** Filing a report only ever completes a trip. */
  lemma ReportKeepsCompleted(trips: seq<TripEntry>, report: TripReport, editingTripId: Option<string>)
    requires UniqueIds(trips)
    ensures NoneReopened(trips, ReportTrips(trips, report, editingTripId))
  {
  }

  /** Deleting leaves the remaining trips as they were. */
  lemma DeleteKeepsCompleted(trips: seq<TripEntry>, id: string)
    requires UniqueIds(trips)
    ensures NoneReopened(trips, Without(trips, {id}))
  {
    var d := Without(trips, {id});
    forall i, j | 0 <= i < |trips| && 0 <= j < |d| && trips[i].id == d[j].id && trips[i].data.status == Completed
      ensures d[j].data.status == Completed
    {
      assert d[j] in d;
      var k :| 0 <= k < |trips| && trips[k] == d[j];
    }
  }

  class TripsScreen {
    var trips: seq<TripEntry>
    var isModalOpen: bool
    var isReportModalOpen: bool
    var currentTrip: TripForm
    var currentReport: TripReport
    var editingTripId: Option<string>

    ghost predicate Valid()
      reads this
    {
      UniqueIds(trips)
    }

    constructor(trips: seq<TripEntry>)
      requires UniqueIds(trips)
      ensures Valid() && this.trips == trips
      ensures !isModalOpen && !isReportModalOpen && currentTrip == InitialTrip && currentReport == InitialReport && editingTripId == None
    {
      this.trips := trips;
      isModalOpen := false;
      isReportModalOpen := false;
      currentTrip := InitialTrip;
      currentReport := InitialReport;
      editingTripId := None;
    }

    method OpenAddModal()
      modifies this
      ensures editingTripId == None && currentTrip == InitialTrip && isModalOpen
      ensures trips == old(trips) && currentReport == old(currentReport) && isReportModalOpen == old(isReportModalOpen)
    {
      editingTripId := None;
      currentTrip := InitialTrip;
      isModalOpen := true;
    }

    method OpenEditModal(trip: TripEntry)
      modifies this
      ensures editingTripId == Some(trip.id) && isModalOpen
      ensures currentTrip == TripForm(trip.data.destination, trip.data.startDate, trip.data.endDate, trip.data.purpose)
      ensures trips == old(trips) && currentReport == old(currentReport) && isReportModalOpen == old(isReportModalOpen)
    {
      editingTripId := Some(trip.id);
      currentTrip := TripForm(trip.data.destination, trip.data.startDate, trip.data.endDate, trip.data.purpose);
      isModalOpen := true;
    }

    /** The report draft starts from the trip's report, or a blank one. */
    method OpenReportModal(trip: TripEntry)
      modifies this
      ensures editingTripId == Some(trip.id) && isReportModalOpen
      ensures currentReport == (if trip.data.report.Some? then trip.data.report.value else InitialReport)
      ensures trips == old(trips) && currentTrip == old(currentTrip) && isModalOpen == old(isModalOpen)
    {
      editingTripId := Some(trip.id);
      currentReport := if trip.data.report.Some? then trip.data.report.value else InitialReport;
      isReportModalOpen := true;
    }

    /** `handleSubmit`; `freshId` stands for `crypto.randomUUID()`. With a
        field missing, nothing changes and the modal stays open. */
    method HandleSubmit(freshId: string)
      requires Valid() && freshId !in Ids(trips)
      modifies this
      ensures Valid()
      ensures trips == SubmitTrips(old(trips), currentTrip, editingTripId, freshId)
      ensures isModalOpen == (old(isModalOpen) && !Complete(currentTrip))
      ensures NoneReopened(old(trips), trips)
      ensures currentTrip == old(currentTrip) && currentReport == old(currentReport)
      ensures editingTripId == old(editingTripId) && isReportModalOpen == old(isReportModalOpen)
    {
      SubmitKeepsCompleted(trips, currentTrip, editingTripId, freshId);
      if currentTrip.destination == "" || currentTrip.startDate == "" || currentTrip.endDate == "" {
        return;
      }
      var form := currentTrip;
      if Truthy(editingTripId) {
        UpdateKeepsIds(trips, editingTripId.value, (t: Trip) => WithForm(t, form));
        trips := Update(trips, editingTripId.value, (t: Trip) => WithForm(t, form));
      } else {
        AppendFresh(trips, Entry(freshId, Trip(form.destination, form.startDate, form.endDate, form.purpose, Planned, None)));
        trips := trips + [Entry(freshId, Trip(form.destination, form.startDate, form.endDate, form.purpose, Planned, None))];
      }
      isModalOpen := false;
    }

    /** `handleReportSubmit`: without a trip being reported on, nothing
        happens; otherwise that trip gets the report and is completed, the
        modal closes and the edited id is cleared. */
    method HandleReportSubmit()
      requires Valid()
      modifies this
      ensures Valid()
      ensures trips == ReportTrips(old(trips), currentReport, old(editingTripId))
      ensures !Truthy(old(editingTripId)) ==> editingTripId == old(editingTripId) && isReportModalOpen == old(isReportModalOpen)
      ensures Truthy(old(editingTripId)) ==> editingTripId == None && !isReportModalOpen
      ensures NoneReopened(old(trips), trips)
      ensures currentTrip == old(currentTrip) && currentReport == old(currentReport) && isModalOpen == old(isModalOpen)
    {
      ReportKeepsCompleted(trips, currentReport, editingTripId);
      if !Truthy(editingTripId) {
        return;
      }
      var report := currentReport;
      UpdateKeepsIds(trips, editingTripId.value, (t: Trip) => WithReport(t, report));
      trips := Update(trips, editingTripId.value, (t: Trip) => WithReport(t, report));
      isReportModalOpen := false;
      editingTripId := None;
    }

    /** `handleDelete`: the trips with that id go, the rest keep their order. */
    method HandleDelete(id: string)
      requires Valid()
      modifies this
      ensures Valid()
      ensures trips == Without(old(trips), {id})
      ensures NoneReopened(old(trips), trips)
      ensures currentTrip == old(currentTrip) && currentReport == old(currentReport) && editingTripId == old(editingTripId)
      ensures isModalOpen == old(isModalOpen) && isReportModalOpen == old(isReportModalOpen)
    {
      DeleteKeepsCompleted(trips, id);
      WithoutKeepsUnique(trips, {id});
      trips := Without(trips, {id});
    }
  }
}
