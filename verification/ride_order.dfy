/** The order a `Sort.by(direction, property)` page request puts ride
    history rows in, as PostgreSQL sorts them: numbers and times by value,
    text by character code, and NULL above every value, so that NULLs come
    last ascending and first descending.
 */
module RideOrder {
  import opened Wrappers
  import opened RideFilters
  import Text

  /** The value of one column of a row, as the database compares it. */
  datatype SortKey = Num(n: real) | Str(s: string) | Null

  /** `a` is lexicographically at most `b`, character by character. */
  predicate LexLe(a: string, b: string)
    decreases |a|
  {
    |a| == 0 || (|b| > 0 && (a[0] < b[0] || (a[0] == b[0] && LexLe(a[1..], b[1..]))))
  }

  lemma {:induction false} LexLeTotal(a: string, b: string)
    ensures LexLe(a, b) || LexLe(b, a)
    decreases |a|
  {
    if |a| > 0 && |b| > 0 && a[0] == b[0] {
      LexLeTotal(a[1..], b[1..]);
    }
  }

  lemma {:induction false} LexLeTrans(a: string, b: string, c: string)
    requires LexLe(a, b) && LexLe(b, c)
    ensures LexLe(a, c)
    decreases |a|
  {
    if |a| > 0 && a[0] == b[0] && b[0] == c[0] {
      LexLeTrans(a[1..], b[1..], c[1..]);
    }
  }

  /** `a` sorts no later than `b` ascending. NULL is above every value; the
      rows of one column never mix numbers and text, and the order between
      the two kinds is only there to make the relation total. */
  predicate KeyLe(a: SortKey, b: SortKey) {
    match (a, b)
    case (_, Null) => true
    case (Null, _) => false
    case (Num(x), Num(y)) => x <= y
    case (Str(x), Str(y)) => LexLe(x, y)
    case (Num(_), Str(_)) => true
    case (Str(_), Num(_)) => false
  }

  lemma KeyLeTotal(a: SortKey, b: SortKey)
    ensures KeyLe(a, b) || KeyLe(b, a)
  {
    if a.Str? && b.Str? {
      LexLeTotal(a.s, b.s);
    }
  }

  lemma KeyLeTrans(a: SortKey, b: SortKey, c: SortKey)
    requires KeyLe(a, b) && KeyLe(b, c)
    ensures KeyLe(a, c)
  {
    if a.Str? && b.Str? && c.Str? {
      LexLeTrans(a.s, b.s, c.s);
    }
  }

  /** The sortable properties of the `RideHistory` entity. */
  datatype RideProperty =
    | ById | ByUserId | ByBikeId | ByStartStationId | ByEndStationId | ByStartTime | ByEndTime
    | ByDurationMinutes | ByDistanceKm | ByCost | ByStatus | ByBikeType

  /** The entity's field name for each property. */
  function PropertyName(p: RideProperty): string {
    match p
    case ById => "id"
    case ByUserId => "userId"
    case ByBikeId => "bikeId"
    case ByStartStationId => "startStationId"
    case ByEndStationId => "endStationId"
    case ByStartTime => "startTime"
    case ByEndTime => "endTime"
    case ByDurationMinutes => "durationMinutes"
    case ByDistanceKm => "distanceKm"
    case ByCost => "cost"
    case ByStatus => "status"
    case ByBikeType => "bikeType"
  }

  /** `Introspector.decapitalize`: the first letter lower-cased, unless the
      first two letters are both capitals. */
  function Decapitalize(name: string): (r: string)
    ensures |r| == |name|
    ensures |name| >= 2 && Text.IsUpperAscii(name[0]) && Text.IsUpperAscii(name[1]) ==> r == name
    ensures |name| > 0 && !(|name| >= 2 && Text.IsUpperAscii(name[0]) && Text.IsUpperAscii(name[1]))
            ==> r == [Text.LowerChar(name[0])] + name[1..]
  {
    if |name| == 0 then name
    else if |name| >= 2 && Text.IsUpperAscii(name[0]) && Text.IsUpperAscii(name[1]) then name
    else [Text.LowerChar(name[0])] + name[1..]
  }

  /** The property a sort names, resolved the way Spring Data resolves a
      property path on the entity: the decapitalized name must be one of
      the entity's fields. */
  function PropertyNamed(name: string): (r: Option<RideProperty>)
    ensures r.Some? ==> PropertyName(r.value) == Decapitalize(name)
    ensures r.None? ==> forall p :: PropertyName(p) != Decapitalize(name)
  {
    var n := Decapitalize(name);
    if n == "id" then Some(ById)
    else if n == "userId" then Some(ByUserId)
    else if n == "bikeId" then Some(ByBikeId)
    else if n == "startStationId" then Some(ByStartStationId)
    else if n == "endStationId" then Some(ByEndStationId)
    else if n == "startTime" then Some(ByStartTime)
    else if n == "endTime" then Some(ByEndTime)
    else if n == "durationMinutes" then Some(ByDurationMinutes)
    else if n == "distanceKm" then Some(ByDistanceKm)
    else if n == "cost" then Some(ByCost)
    else if n == "status" then Some(ByStatus)
    else if n == "bikeType" then Some(ByBikeType)
    else None
  }

  /** Every property is found under its own field name, and under the
      same name with a capital first letter. */
  lemma PropertyNameRoundTrip(p: RideProperty)
    ensures PropertyNamed(PropertyName(p)) == Some(p)
    ensures PropertyNamed([Text.UpperChar(PropertyName(p)[0])] + PropertyName(p)[1..]) == Some(p)
  {
    var n := PropertyName(p);
    assert Text.IsLowerAscii(n[0]) && !Text.IsUpperAscii(n[1]);
    DecapitalizeLowerInitial(n);
    FieldNameFound(p);
    CapitalizedDecapitalizes(n);
    SameDecapitalizedSameProperty([Text.UpperChar(n[0])] + n[1..], n);
  }

  /** The lookup on a field name as written. */
  lemma FieldNameFound(p: RideProperty)
    requires Decapitalize(PropertyName(p)) == PropertyName(p)
    ensures PropertyNamed(PropertyName(p)) == Some(p)
  {
  }

  /** Two names that decapitalize alike name the same property. */
  lemma SameDecapitalizedSameProperty(a: string, b: string)
    requires Decapitalize(a) == Decapitalize(b)
    ensures PropertyNamed(a) == PropertyNamed(b)
  {
  }

  /** A name starting with a lower-case letter is already decapitalized. */
  lemma DecapitalizeLowerInitial(n: string)
    requires |n| > 0 && Text.IsLowerAscii(n[0])
    ensures Decapitalize(n) == n
  {
    assert [Text.LowerChar(n[0])] + n[1..] == n;
  }

  /** Capitalizing a lower-case initial is undone by decapitalizing, unless
      the second letter is a capital too. */
  lemma CapitalizedDecapitalizes(n: string)
    requires |n| > 0 && Text.IsLowerAscii(n[0]) && (|n| == 1 || !Text.IsUpperAscii(n[1]))
    ensures Decapitalize([Text.UpperChar(n[0])] + n[1..]) == n
  {
    var c := [Text.UpperChar(n[0])] + n[1..];
    assert Text.LowerChar(c[0]) == n[0];
    assert c[1..] == n[1..];
    assert [Text.LowerChar(c[0])] + c[1..] == n;
  }

  /** `RideStatus` is stored as the text of its name. */
  function StatusName(s: RideStatus): string {
    match s
    case COMPLETED => "COMPLETED"
    case IN_PROGRESS => "IN_PROGRESS"
    case CANCELLED => "CANCELLED"
  }

  function OptionalNum(v: Option<real>): SortKey {
    if v.Some? then Num(v.value) else Null
  }

  function OptionalInt(v: Option<int>): SortKey {
    if v.Some? then Num(v.value as real) else Null
  }

  /** The column value of a row that a sort on `p` compares. */
  function KeyOf(p: RideProperty, r: Ride): SortKey {
    match p
    case ById => Num(r.id as real)
    case ByUserId => Num(r.userId as real)
    case ByBikeId => Num(r.bikeId as real)
    case ByStartStationId => OptionalInt(r.startStationId)
    case ByEndStationId => OptionalInt(r.endStationId)
    case ByStartTime => Num(r.startTime as real)
    case ByEndTime => OptionalInt(r.endTime)
    case ByDurationMinutes => OptionalNum(r.durationMinutes)
    case ByDistanceKm => OptionalNum(r.distanceKm)
    case ByCost => OptionalNum(r.cost)
    case ByStatus => Str(StatusName(r.status))
    case ByBikeType => if r.bikeType.Some? then Str(r.bikeType.value) else Null
  }

  /** `a` may precede `b` in an `ORDER BY p` in direction `dir`. */
  predicate InOrder(p: RideProperty, dir: Direction, a: Ride, b: Ride) {
    if dir == ASC then KeyLe(KeyOf(p, a), KeyOf(p, b)) else KeyLe(KeyOf(p, b), KeyOf(p, a))
  }

  lemma InOrderTotal(p: RideProperty, dir: Direction, a: Ride, b: Ride)
    ensures InOrder(p, dir, a, b) || InOrder(p, dir, b, a)
  {
    KeyLeTotal(KeyOf(p, a), KeyOf(p, b));
  }

  lemma InOrderTrans(p: RideProperty, dir: Direction, a: Ride, b: Ride, c: Ride)
    requires InOrder(p, dir, a, b) && InOrder(p, dir, b, c)
    ensures InOrder(p, dir, a, c)
  {
    if dir == ASC {
      KeyLeTrans(KeyOf(p, a), KeyOf(p, b), KeyOf(p, c));
    } else {
      KeyLeTrans(KeyOf(p, c), KeyOf(p, b), KeyOf(p, a));
    }
  }

  /** `s` is in `ORDER BY p` order in direction `dir`. */
  predicate SortedBy(s: seq<Ride>, p: RideProperty, dir: Direction) {
    forall i, j :: 0 <= i < j < |s| ==> InOrder(p, dir, s[i], s[j])
  }

  /** A row that may precede every row of a sorted list keeps it sorted
      when put in front. */
  lemma ConsSorted(x: Ride, s: seq<Ride>, p: RideProperty, dir: Direction)
    requires SortedBy(s, p, dir)
    requires forall k :: 0 <= k < |s| ==> InOrder(p, dir, x, s[k])
    ensures SortedBy([x] + s, p, dir)
  {
    var t := [x] + s;
    forall i, j | 0 <= i < j < |t| ensures InOrder(p, dir, t[i], t[j]) {
      assert t[j] == s[j - 1];
      if i > 0 {
        assert t[i] == s[i - 1];
      }
    }
  }

  /** Every row of a sorted list may follow its head. */
  lemma HeadPrecedes(s: seq<Ride>, p: RideProperty, dir: Direction, x: Ride)
    requires SortedBy(s, p, dir) && |s| > 0 && InOrder(p, dir, x, s[0])
    ensures forall k :: 0 <= k < |s| ==> InOrder(p, dir, x, s[k])
  {
    forall k | 0 < k < |s| ensures InOrder(p, dir, x, s[k]) {
      InOrderTrans(p, dir, x, s[0], s[k]);
    }
  }

  /** What may follow `y` in `s` and may follow `y` as `x` does may follow
      it anywhere in a rearrangement of `s` plus `x`. */
  lemma FollowsAll(y: Ride, s: seq<Ride>, x: Ride, t: seq<Ride>, p: RideProperty, dir: Direction)
    requires forall k :: 0 <= k < |s| ==> InOrder(p, dir, y, s[k])
    requires InOrder(p, dir, y, x)
    requires multiset(t) == multiset(s) + multiset{x}
    ensures forall k :: 0 <= k < |t| ==> InOrder(p, dir, y, t[k])
  {
    forall k | 0 <= k < |t| ensures InOrder(p, dir, y, t[k]) {
      assert t[k] in multiset(t);
      if t[k] != x {
        assert t[k] in multiset(s);
        var m :| 0 <= m < |s| && s[m] == t[k];
      }
    }
  }

  /** `x` placed into a sorted list before the first row it may precede. */
  function Insert(x: Ride, s: seq<Ride>, p: RideProperty, dir: Direction): (r: seq<Ride>)
    requires SortedBy(s, p, dir)
    ensures SortedBy(r, p, dir)
    ensures multiset(r) == multiset(s) + multiset{x}
    ensures |r| == |s| + 1
  {
    if |s| == 0 then [x]
    else if InOrder(p, dir, x, s[0]) then
      HeadPrecedes(s, p, dir, x);
      ConsSorted(x, s, p, dir);
      [x] + s
    else
      var tail := s[1..];
      assert forall k :: 0 <= k < |tail| ==> tail[k] == s[k + 1];
      var t := Insert(x, tail, p, dir);
      InOrderTotal(p, dir, x, s[0]);
      FollowsAll(s[0], tail, x, t, p, dir);
      ConsSorted(s[0], t, p, dir);
      assert s == [s[0]] + tail;
      [s[0]] + t
  }

  /** `s` put in `ORDER BY p` order in direction `dir`. */
  function SortRides(s: seq<Ride>, p: RideProperty, dir: Direction): (r: seq<Ride>)
    ensures SortedBy(r, p, dir)
    ensures multiset(r) == multiset(s)
    ensures |r| == |s|
  {
    if |s| == 0 then []
    else
      assert s == [s[0]] + s[1..];
      Insert(s[0], SortRides(s[1..], p, dir), p, dir)
  }

  /** A run of a sorted list is sorted. */
  lemma SliceSorted(s: seq<Ride>, from: nat, to: nat, p: RideProperty, dir: Direction)
    requires from <= to <= |s| && SortedBy(s, p, dir)
    ensures SortedBy(s[from..to], p, dir)
  {
    forall i, j | 0 <= i < j < to - from ensures InOrder(p, dir, s[from..to][i], s[from..to][j]) {
      assert s[from..to][i] == s[from + i] && s[from..to][j] == s[from + j];
    }
  }

  /** Ordering by start time, newest first, is ordering by the start time
      value. */
  lemma StartTimeDescending(a: Ride, b: Ride)
    ensures InOrder(ByStartTime, DESC, a, b) <==> a.startTime >= b.startTime
  {
  }
}
