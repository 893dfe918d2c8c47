/** The rider's ride history page (`RideHistory.jsx`): the duration text,
    the guard on a missing user id, the classification of failed fetches,
    and the filter form.

    `R` is a ride as the page receives it; the page only stores and shows
    the list.
 */
module RideHistoryPage {
  import opened Wrappers
  import Text

  // ---- Duration text ----

  /** JavaScript's `x % 60` for a finite `x`: the remainder keeps the sign of `x`. */
  function JsRemainder60(x: real): (r: real)
    ensures x >= 0.0 ==> 0.0 <= r < 60.0
  {
    var q := x / 60.0;
    var t := if q >= 0.0 then q.Floor else -((-q).Floor);
    x - 60.0 * t as real
  }

  /** `formatDuration(minutes)`: "N/A" for a missing or zero duration, "Hh Mm"
      with both parts floored when there is at least an hour, otherwise "Mm". */
  function FormatDuration(minutes: Option<real>): (r: string)
    ensures minutes.None? || minutes == Some(0.0) ==> r == "N/A"
    ensures minutes.Some? && minutes.value != 0.0 ==> |r| > 0 && r[|r| - 1] == 'm'
  {
    if minutes.None? || minutes.value == 0.0 then "N/A"
    else
      var hrs := (minutes.value / 60.0).Floor;
      var mins := JsRemainder60(minutes.value).Floor;
      if hrs > 0 then Text.IntToString(hrs) + "h " + Text.IntToString(mins) + "m"
      else Text.IntToString(mins) + "m"
  }

  /** Reading a duration text back as whole minutes: "Mm" or "Hh Mm". */
  function ReadDuration(s: string): Option<nat> {
    if |s| == 0 || s[|s| - 1] != 'm' then None
    else
      var body := s[..|s| - 1];
      if ' ' !in body then Text.ParseNat(body)
      else ReadHours(Text.Split(body, ' '))
  }

  /** The pieces "Hh" and "M" as whole minutes. */
  function ReadHours(parts: seq<string>): Option<nat> {
    if |parts| != 2 || |parts[0]| == 0 || parts[0][|parts[0]| - 1] != 'h' then None
    else
      match (Text.ParseNat(parts[0][..|parts[0]| - 1]), Text.ParseNat(parts[1]))
      case (Some(h), Some(m)) => Some(h * 60 + m)
      case _ => None
  }

  /** Hours and minutes of a positive duration make up its whole minutes. */
  lemma FlooredParts(m: real)
    requires m > 0.0
    ensures var hrs := (m / 60.0).Floor; var mins := JsRemainder60(m).Floor;
            hrs >= 0 && 0 <= mins < 60 && m.Floor == hrs * 60 + mins
            && (hrs > 0 <==> m >= 60.0)
  {
    var hrs := (m / 60.0).Floor;
    assert hrs as real <= m / 60.0 < hrs as real + 1.0;
    assert 60.0 * hrs as real <= m < 60.0 * hrs as real + 60.0;
  }

  lemma NoSpaceInDigits(t: string)
    requires Text.AllDigits(t)
    ensures ' ' !in t
  {
  }

  /** "Mm" reads back as `m`. */
  lemma MinutesTextReadsBack(m: nat)
    ensures ReadDuration(Text.NatToString(m) + "m") == Some(m)
  {
    var minsText := Text.NatToString(m);
    var s := minsText + "m";
    Text.ParseNatToString(m);
    assert s[..|s| - 1] == minsText;
    NoSpaceInDigits(minsText);
  }

  /** Two digit strings `a` and `b` written as "ah bm" are read through
      their pieces "ah" and "b". */
  lemma HoursTextParts(a: string, b: string)
    requires |a| > 0 && |b| > 0 && Text.AllDigits(a) && Text.AllDigits(b)
    ensures ReadDuration(a + "h " + b + "m") == ReadHours([a + "h", b])
  {
    var s := a + "h " + b + "m";
    var body := s[..|s| - 1];
    assert s[|s| - 1] == 'm';
    assert body == (a + "h") + [' '] + b;
    NoSpaceInDigits(a);
    NoSpaceInDigits(b);
    assert ' ' !in a + "h";
    assert body[|a| + 1] == ' ';
    Text.SplitHead(a + "h", ' ', b);
  }

  /** The pieces of "Hh Mm" make `h * 60 + m` minutes. */
  lemma HoursPartsRead(h: nat, m: nat)
    ensures ReadHours([Text.NatToString(h) + "h", Text.NatToString(m)]) == Some(h * 60 + m)
  {
    var hrsText := Text.NatToString(h);
    Text.ParseNatToString(h);
    Text.ParseNatToString(m);
    assert (hrsText + "h")[..|hrsText|] == hrsText;
  }

  /** "Hh Mm" reads back as `h * 60 + m`. */
  lemma HoursTextReadsBack(h: nat, m: nat)
    ensures ReadDuration(Text.NatToString(h) + "h " + Text.NatToString(m) + "m") == Some(h * 60 + m)
  {
    HoursTextParts(Text.NatToString(h), Text.NatToString(m));
    HoursPartsRead(h, m);
  }

  /** The text of a positive duration, in terms of its hours and minutes. */
  lemma FormatDurationShape(m: real, hrs: int, mins: int)
    requires m > 0.0 && hrs == (m / 60.0).Floor && mins == JsRemainder60(m).Floor
    requires hrs >= 0 && mins >= 0
    ensures FormatDuration(Some(m))
            == if hrs > 0 then Text.NatToString(hrs) + "h " + Text.NatToString(mins) + "m"
               else Text.NatToString(mins) + "m"
  {
  }

  /** A positive duration's text reads back as its whole (floored) minutes. */
  lemma DurationReadsBack(m: real)
    requires m > 0.0
    ensures ReadDuration(FormatDuration(Some(m))) == Some(m.Floor as nat)
  {
    FlooredParts(m);
    var hrs := (m / 60.0).Floor;
    var mins := JsRemainder60(m).Floor;
    FormatDurationShape(m, hrs, mins);
    TextReadsBack(FormatDuration(Some(m)), hrs, mins);
  }

  /** Either shape of duration text reads back as its minutes. */
  lemma TextReadsBack(t: string, hrs: nat, mins: nat)
    requires t == if hrs > 0 then Text.NatToString(hrs) + "h " + Text.NatToString(mins) + "m"
                  else Text.NatToString(mins) + "m"
    ensures ReadDuration(t) == Some(hrs * 60 + mins)
  {
    if hrs > 0 {
      HoursTextReadsBack(hrs, mins);
    } else {
      MinutesTextReadsBack(mins);
    }
  }

  // ---- Fetching ----

  /** The page's state: the rides shown, the error shown, and the spinner. */
  datatype PageState<R> = PageState(rides: seq<R>, error: Option<string>, loading: bool)

  /** The four filter inputs. */
  datatype Filters = Filters(startDate: string, endDate: string, status: string, bikeType: string)

  /** The request `getUserRideHistory(userId, filters)`. */
  datatype HistoryRequest = HistoryRequest(userId: int, filters: Filters)

  const NoUser: string := "User not found. Please log in again."

  /** `fetchRideHistory()` up to the request: without a (truthy) user id it
      shows an error, stops loading and sends nothing; otherwise it clears
      the error, starts loading and sends the request. */
  function StartFetch<R>(st: PageState<R>, userId: Option<int>, filters: Filters)
    : (r: (PageState<R>, Option<HistoryRequest>))
    ensures r.1.None? <==> userId.None? || userId.value == 0
    ensures r.1.None? ==> r.0 == st.(error := Some(NoUser), loading := false)
    ensures r.1.Some? ==> r.1.value == HistoryRequest(userId.value, filters)
    ensures r.1.Some? ==> r.0 == st.(error := None, loading := true)
  {
    if userId.None? || userId.value == 0 then (st.(error := Some(NoUser), loading := false), None)
    else (st.(error := None, loading := true), Some(HistoryRequest(userId.value, filters)))
  }

  /** What the page knows of a failed request: the HTTP status of the
      response, if any, the error code and the error message. */
  datatype FetchError = FetchError(status: Option<int>, code: Option<string>, message: Option<string>)

  const AccessDenied: string := "Access denied. Please log in again."
  const NoHistory: string := "No ride history found."
  const Unreachable: string := "Failed to connect to server. Please ensure the backend is running."
  const LoadFailed: string := "Failed to load ride history. Please try again."

  /** The message for a failed fetch, the first matching case winning: 403,
      404, a refused connection or a "Failed to fetch" message, anything else. */
  function ErrorMessage(e: FetchError): (r: string)
    ensures e.status == Some(403) ==> r == AccessDenied
    ensures e.status == Some(404) ==> r == NoHistory
    ensures r == Unreachable <==>
            e.status != Some(403) && e.status != Some(404)
            && (e.code == Some("ECONNREFUSED") || (e.message.Some? && Text.Contains(e.message.value, "Failed to fetch")))
  {
    if e.status == Some(403) then AccessDenied
    else if e.status == Some(404) then NoHistory
    else if e.code == Some("ECONNREFUSED") || (e.message.Some? && Text.Contains(e.message.value, "Failed to fetch"))
    then Unreachable
    else LoadFailed
  }

  /** The `catch` and `finally` of `fetchRideHistory()`: the message is shown,
      the list is emptied, and loading ends. */
  function FetchFailed<R>(st: PageState<R>, e: FetchError): (r: PageState<R>)
    ensures r.rides == [] && !r.loading && r.error == Some(ErrorMessage(e))
  {
    PageState([], Some(ErrorMessage(e)), false)
  }

  /** A successful fetch: the rides, or an empty list for an empty body. */
  function FetchSucceeded<R>(st: PageState<R>, body: Option<seq<R>>): (r: PageState<R>)
    ensures r.rides == body.GetOr([]) && !r.loading && r.error == st.error
  {
    st.(rides := body.GetOr([]), loading := false)
  }

  /** Every failure leaves an error on screen and no rides; a fetch started
      without a user never reaches the server. */
  lemma FailuresNeverShowRides<R>(st: PageState<R>, e: FetchError)
    ensures FetchFailed(st, e).rides == [] && FetchFailed(st, e).error.Some?
    ensures FetchFailed(st, e).error.value in {AccessDenied, NoHistory, Unreachable, LoadFailed}
  {
  }

  // ---- Filters ----

  const NoFilters: Filters := Filters("", "", "", "")

  /** `handleFilterChange`: the named input takes the value; an unknown name
      leaves the four filters as they were. */
  function ChangeFilter(f: Filters, name: string, value: string): (r: Filters)
    ensures name == "startDate" ==> r == f.(startDate := value)
    ensures name == "endDate" ==> r == f.(endDate := value)
    ensures name == "status" ==> r == f.(status := value)
    ensures name == "bikeType" ==> r == f.(bikeType := value)
    ensures name !in {"startDate", "endDate", "status", "bikeType"} ==> r == f
  {
    if name == "startDate" then f.(startDate := value)
    else if name == "endDate" then f.(endDate := value)
    else if name == "status" then f.(status := value)
    else if name == "bikeType" then f.(bikeType := value)
    else f
  }

  /** `clearFilters()`: all four inputs back to ''. */
  function ClearFilters(f: Filters): (r: Filters)
    ensures r.startDate == "" && r.endDate == "" && r.status == "" && r.bikeType == ""
  {
    NoFilters
  }

  /** Whatever was typed into the filters before, clearing gives the same
      state as a fresh page. */
  lemma ClearForgetsChanges(f: Filters, name: string, value: string)
    ensures ClearFilters(ChangeFilter(f, name, value)) == ClearFilters(f) == NoFilters
  {
  }
}
