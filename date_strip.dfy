/** The date selector shared by the booking calendar and the daily bookings
    page: the next 28 days as buttons, where a weekend day is drawn inside a
    box and a Saturday followed by a Sunday share one box. */
module DateStrip {
  import opened Model

  const BOOKING_WINDOW_DAYS: nat := 28
  const SATURDAY: int := 6
  const SUNDAY: int := 0

  /** A day of the window: its instant and its day of the week (`getDay()`,
      0 = Sunday … 6 = Saturday), which local time decides. */
  datatype Day = Day(date: Instant, weekday: int)

  datatype StripItem = Button(day: Day) | WeekendBox(days: seq<Day>)

  /** `Array.from({ length: 28 }, (_, i) => addDays(now, i))`, with the
      weekday of each instant given. */
  function NextDays(now: Instant, weekdayOf: Instant -> int): (days: seq<Day>)
    ensures |days| == BOOKING_WINDOW_DAYS
    ensures forall i :: 0 <= i < |days| ==> days[i].date == now + i * DAY_MS
    ensures forall i :: 0 < i < |days| ==> days[i].date == days[i - 1].date + DAY_MS
  {
    seq(BOOKING_WINDOW_DAYS, i requires 0 <= i => Day(now + i * DAY_MS, weekdayOf(now + i * DAY_MS)))
  }

  function ItemDays(item: StripItem): seq<Day>
  {
    match item
    case Button(d) => [d]
    case WeekendBox(ds) => ds
  }

  /** The days in the order the strip shows them. */
  function ShownDays(items: seq<StripItem>): seq<Day>
  {
    if items == [] then [] else ItemDays(items[0]) + ShownDays(items[1..])
  }

  lemma {:induction false} ShownDaysAppend(items: seq<StripItem>, item: StripItem)
    ensures ShownDays(items + [item]) == ShownDays(items) + ItemDays(item)
  {
    if items != [] {
      assert (items + [item])[1..] == items[1..] + [item];
      ShownDaysAppend(items[1..], item);
    }
  }

  /** The shape of one item: a weekday button, a box with a lone weekend day,
      or a box holding a Saturday and the Sunday after it. */
  predicate WellFormedItem(item: StripItem)
  {
    match item
    case Button(d) => d.weekday != SATURDAY && d.weekday != SUNDAY
    case WeekendBox(ds) =>
      || (|ds| == 1 && (ds[0].weekday == SATURDAY || ds[0].weekday == SUNDAY))
      || (|ds| == 2 && ds[0].weekday == SATURDAY && ds[1].weekday == SUNDAY)
  }

  /** What the strip loop keeps once the days before `index` are placed: they
      are shown in order, every item is well formed, every Saturday-Sunday
      pair seen so far is boxed together, and the loop never stops between a
      Saturday and its Sunday. */
  ghost predicate StripPrefix(items: seq<StripItem>, days: seq<Day>, index: int)
  {
    && 0 <= index <= |days|
    && ShownDays(items) == days[..index]
    && (forall k :: 0 <= k < |items| ==> WellFormedItem(items[k]))
    && (forall i :: 0 <= i < index && i < |days| - 1 && days[i].weekday == SATURDAY && days[i + 1].weekday == SUNDAY ==>
          i + 1 < index && WeekendBox([days[i], days[i + 1]]) in items)
    && (index > 0 && index < |days| && days[index].weekday == SUNDAY ==> days[index - 1].weekday != SATURDAY)
  }

  /** The item the loop builds at `index`, and where it continues. */
  ghost predicate StripStepOk(days: seq<Day>, index: int, item: StripItem, next: int)
    requires 0 <= index < |days|
  {
    var date := days[index];
    if date.weekday == SATURDAY && index + 1 < |days| && days[index + 1].weekday == SUNDAY then
      item == WeekendBox([date, days[index + 1]]) && next == index + 2
    else if date.weekday == SATURDAY || date.weekday == SUNDAY then
      item == WeekendBox([date]) && next == index + 1
    else
      item == Button(date) && next == index + 1
  }

  /** One iteration of the strip loop keeps `StripPrefix`. */
  lemma StripStep(items: seq<StripItem>, days: seq<Day>, index: int, item: StripItem, next: int)
    requires StripPrefix(items, days, index) && index < |days|
    requires StripStepOk(days, index, item, next)
    ensures StripPrefix(items + [item], days, next)
  {
    StripStepShows(items, days, index, item, next);
    StripStepBoxesPairs(items, days, index, item, next);
    var r := items + [item];
    forall k | 0 <= k < |r|
      ensures WellFormedItem(r[k])
    {
      if k < |items| {
        assert r[k] == items[k];
      }
    }
  }

  /** The new item shows exactly the days the step passes over. */
  lemma StripStepShows(items: seq<StripItem>, days: seq<Day>, index: int, item: StripItem, next: int)
    requires 0 <= index < |days| && ShownDays(items) == days[..index]
    requires StripStepOk(days, index, item, next)
    ensures next <= |days| && ShownDays(items + [item]) == days[..next]
  {
    ShownDaysAppend(items, item);
    if next == index + 2 {
      assert days[..next] == days[..index] + [days[index], days[index + 1]];
    } else {
      assert days[..next] == days[..index] + [days[index]];
    }
  }

  /** Every Saturday-Sunday pair the step passes over is boxed together, and
      the step never stops between a Saturday and its Sunday. */
  lemma StripStepBoxesPairs(items: seq<StripItem>, days: seq<Day>, index: int, item: StripItem, next: int)
    requires StripPrefix(items, days, index) && index < |days|
    requires StripStepOk(days, index, item, next)
    ensures forall i :: 0 <= i < next && i < |days| - 1 && days[i].weekday == SATURDAY && days[i + 1].weekday == SUNDAY ==>
              i + 1 < next && WeekendBox([days[i], days[i + 1]]) in items + [item]
    ensures next > 0 && next < |days| && days[next].weekday == SUNDAY ==> days[next - 1].weekday != SATURDAY
  {
    forall i | 0 <= i < next && i < |days| - 1 && days[i].weekday == SATURDAY && days[i + 1].weekday == SUNDAY
      ensures i + 1 < next && WeekendBox([days[i], days[i + 1]]) in items + [item]
    {
      if i < index {
        assert WeekendBox([days[i], days[i + 1]]) in items;
      } else if i == index {
        assert item == WeekendBox([days[i], days[i + 1]]);
      } else {
        assert false;
      }
    }
  }

  /** The loop over `nextDays`: each day is shown once, in order; weekdays as
      plain buttons, weekend days boxed, and a Saturday directly followed by a
      Sunday boxed together. */
  method BuildStrip(days: seq<Day>) returns (items: seq<StripItem>)
    ensures ShownDays(items) == days
    ensures forall k :: 0 <= k < |items| ==> WellFormedItem(items[k])
    ensures forall i :: 0 <= i < |days| - 1 && days[i].weekday == SATURDAY && days[i + 1].weekday == SUNDAY ==>
              WeekendBox([days[i], days[i + 1]]) in items
  {
    items := [];
    var index := 0;
    while index < |days|
      invariant StripPrefix(items, days, index)
    {
      var date := days[index];
      var item: StripItem;
      var next := index + 1;
      if date.weekday == SATURDAY {
        var hasSunday := index + 1 < |days| && days[index + 1].weekday == SUNDAY;
        item := if hasSunday then WeekendBox([date, days[index + 1]]) else WeekendBox([date]);
        if hasSunday {
          next := index + 2;
        }
      } else if date.weekday == SUNDAY {
        item := WeekendBox([date]);
      } else {
        item := Button(date);
      }
      StripStep(items, days, index, item, next);
      items := items + [item];
      index := next;
    }
    assert days[..index] == days;
  }
}
