/**
 Volunteer-hour accounting of server/utils/reportUtils.ts. Instants are
 milliseconds; a calendar maps each hour block of the time line to the local day
 and hour it is stamped with (time-zone offsets are whole hours).
 */
module TutorTime {
  import opened MapSums

  type Day = int

  datatype Calendar = Calendar(dayOf: int -> Day, hourOf: int -> nat)

  /** An hour of the day, or the property name "hour" that addToAcc writes for a new day. */
  datatype HourKey = Hour(hour: nat) | LiteralHour

  type Acc = map<Day, map<HourKey, int>>

  datatype Session = Session(joinedAt: int, endedAt: int, timeTutored: int)
  datatype Slot = Slot(hour: nat, available: bool)
  /** A snapshot, already moved back one day: the day it speaks for and that weekday's hours. */
  datatype History = History(day: Day, slots: seq<Slot>)
  /** An available hour of a day. */
  datatype Credit = Credit(day: Day, hour: nat)

  function Minute(t: int): int { t / 60000 }
  function Block(t: int): int { t / 3600000 }
  function DayAt(cal: Calendar, t: int): Day { (cal.dayOf)(Block(t)) }
  function HourAt(cal: Calendar, t: int): nat { (cal.hourOf)(Block(t)) }

  function RoundUp(n: int, interval: int): int
    requires interval > 0
  {
    -((-n) / interval) * interval
  }

  // ----- The accumulator -----

  function AddTo(acc: Acc, day: Day, hour: nat, minutes: int): Acc {
    if day in acc then
      var sub, key := acc[day], Hour(hour);
      acc[day := sub[key := (if key in sub then sub[key] else 0) + minutes]]
    else
      acc[day := map[LiteralHour := minutes]]
  }

  function ReadFrom(acc: Acc, day: Day, hour: nat): int {
    if day in acc && Hour(hour) in acc[day] then acc[day][Hour(hour)] else 0
  }

  ghost function DayTotal(acc: Acc, day: Day): int {
    if day in acc then Sum(acc[day]) else 0
  }

  /** Whichever branch stores the minutes, they reach the day's total and no other day's. */
  lemma AddToTotal(acc: Acc, day: Day, hour: nat, minutes: int, d: Day)
    ensures DayTotal(AddTo(acc, day, hour, minutes), d) == DayTotal(acc, d) + if d == day then minutes else 0
  {
    if day in acc {
      SumUpdate(acc[day], Hour(hour), ReadFrom(acc, day, hour) + minutes);
    } else {
      var empty: map<HourKey, int> := map[];
      SumUpdate(empty, LiteralHour, minutes);
      assert empty[LiteralHour := minutes] == map[LiteralHour := minutes];
    }
  }

  ghost function Reduced(acc: Acc): map<Day, int> {
    map d | d in acc && DayTotal(acc, d) != 0 :: DayTotal(acc, d)
  }

  class Accumulator {
    var days: Acc

    constructor ()
      ensures days == map[]
    {
      days := map[];
    }

    method Add(day: Day, hour: nat, minutes: int)
      modifies this
      ensures days == AddTo(old(days), day, hour, minutes)
    {
      if day in days {
        var sub := days[day];
        if Hour(hour) in sub {
          days := days[day := sub[Hour(hour) := sub[Hour(hour)] + minutes]];
        } else {
          days := days[day := sub[Hour(hour) := minutes]];
        }
      } else {
        days := days[day := map[LiteralHour := minutes]];
      }
    }

    method Read(day: Day, hour: nat) returns (minutes: int)
      ensures minutes == ReadFrom(days, day, hour)
    {
      if day in days {
        var sub := days[day];
        if Hour(hour) in sub {
          return sub[Hour(hour)];
        }
      }
      return 0;
    }

    /** Day totals in minutes; days whose total is zero are dropped. */
    method Reduce() returns (final: map<Day, int>)
      ensures final == Reduced(days)
    {
      final := map[];
      var left := days;
      while left != map[]
        invariant forall d <- left :: d in days && left[d] == days[d]
        invariant forall d <- days :: d in left || (d in final <==> DayTotal(days, d) != 0)
        invariant forall d <- final :: d in days && d !in left && final[d] == DayTotal(days, d)
        decreases |left|
      {
        var day := SomeKey(left);
        Smaller(left, day);
        left := left - {day};
        var total := SumOf(days[day]);
        if total != 0 {
          final := final[day := total];
        }
      }
      forall d ensures d in final <==> d in Reduced(days) {
      }
    }
  }

  method SumOf(sub: map<HourKey, int>) returns (total: int)
    ensures total == Sum(sub)
  {
    total := 0;
    var left := sub;
    while left != map[]
      invariant total + Sum(left) == Sum(sub)
      decreases |left|
    {
      var key := SomeKey(left);
      total := total + left[key];
      SumRemove(left, key);
      Smaller(left, key);
      left := left - {key};
    }
  }

  // ----- Minutes of one session -----

  predicate Below60(acc: Acc, cal: Calendar, block: int) {
    ReadFrom(acc, (cal.dayOf)(block), (cal.hourOf)(block)) < 60
  }

  /** The minutes in [from, until) whose hour block reads below 60, or those whose block does not. */
  function CountMinutes(acc: Acc, cal: Calendar, from: int, until: int, below: bool): int
    decreases until - from
  {
    if until <= from then 0
    else CountMinutes(acc, cal, from, until - 1, below) + if Below60(acc, cal, (until - 1) / 60) == below then 1 else 0
  }

  lemma {:induction false} CountInBlock(acc: Acc, cal: Calendar, from: int, mid: int, until: int, below: bool)
    requires from <= mid <= until <= (mid / 60 + 1) * 60
    ensures CountMinutes(acc, cal, from, until, below)
         == CountMinutes(acc, cal, from, mid, below) + if Below60(acc, cal, mid / 60) == below then until - mid else 0
    decreases until - mid
  {
    if mid < until {
      assert (until - 1) / 60 == mid / 60;
      CountInBlock(acc, cal, from, mid, until - 1, below);
    }
  }

  lemma {:induction false} CountsPartition(acc: Acc, cal: Calendar, from: int, until: int)
    requires from <= until
    ensures CountMinutes(acc, cal, from, until, true) + CountMinutes(acc, cal, from, until, false) == until - from
    decreases until - from
  {
    if from < until {
      CountsPartition(acc, cal, from, until - 1);
    }
  }

  /** The session ends in the first minute of an hour, earlier in that minute than the second at
      which the hourly steps land: the last step overshoots and takes its minutes from the wrong hour. */
  predicate LosesAnHour(s: Session) {
    s.joinedAt < s.endedAt && Minute(s.endedAt) % 60 == 0 && s.endedAt % 60000 < s.joinedAt % 60000
  }

  /** What the hourly loop adds to `contribution` (below) or `skipped` (not below). */
  function LoopMinutes(acc: Acc, cal: Calendar, s: Session, below: bool): int {
    CountMinutes(acc, cal, Minute(s.joinedAt), Minute(s.endedAt), below)
    - if LosesAnHour(s) && Below60(acc, cal, Minute(s.endedAt) / 60 - 1) == below then 60 else 0
  }

  /** The two parts add up to the whole minutes of the session exactly when no hour is lost. */
  lemma LoopConservesMinutes(acc: Acc, cal: Calendar, s: Session)
    requires s.joinedAt < s.endedAt
    ensures LoopMinutes(acc, cal, s, true) + LoopMinutes(acc, cal, s, false)
         == Minute(s.endedAt) - Minute(s.joinedAt) - if LosesAnHour(s) then 60 else 0
    ensures (LoopMinutes(acc, cal, s, true) + LoopMinutes(acc, cal, s, false)
             == Minute(s.endedAt) - Minute(s.joinedAt)) <==> !LosesAnHour(s)
  {
    CountsPartition(acc, cal, Minute(s.joinedAt), Minute(s.endedAt));
  }

  /** A nine-minute session, 10:51:30 to 11:00:10, that contributes minus 51 minutes. */
  lemma LostHourExample(cal: Calendar)
    ensures var s := Session(51 * 60000 + 30000, 60 * 60000 + 10000, 500000);
            LoopMinutes(map[], cal, s, true) == -51 && RoundUp(-51, 15) == -45
  {
    var s := Session(51 * 60000 + 30000, 60 * 60000 + 10000, 500000);
    assert Minute(s.joinedAt) == 51 && Minute(s.endedAt) == 60 && LosesAnHour(s);
    CountInBlock(map[], cal, 51, 51, 60, true);
  }

  /** Where the hourly loop goes from `counter`. */
  function NextHour(counter: int): int {
    counter + (60 - Minute(counter) % 60) * 60000
  }

  function Offset(s: Session, counter: int): int {
    if NextHour(counter) > s.endedAt then Minute(s.endedAt) % 60 - Minute(counter) % 60
    else 60 - Minute(counter) % 60
  }

  /** What the loop has accumulated when it stands at `counter`. */
  function SoFar(acc: Acc, cal: Calendar, s: Session, counter: int, below: bool): int {
    if counter < s.endedAt then CountMinutes(acc, cal, Minute(s.joinedAt), Minute(counter), below)
    else LoopMinutes(acc, cal, s, below)
  }

  lemma HourStep(s: Session, counter: int)
    requires s.joinedAt <= counter < s.endedAt && counter % 60000 == s.joinedAt % 60000
    ensures var next, c, e := NextHour(counter), Minute(counter), Minute(s.endedAt);
            && next > counter && next % 60000 == counter % 60000
            && Minute(next) == (c / 60 + 1) * 60 && c / 60 == Block(counter) && Minute(s.joinedAt) <= c <= e
            && (next == s.endedAt ==> !LosesAnHour(s))
            && (next > s.endedAt && LosesAnHour(s) ==> e == Minute(next) && Offset(s, counter) == e - c - 60)
            && (next > s.endedAt && !LosesAnHour(s) ==> e < Minute(next) && Offset(s, counter) == e - c)
            && (next <= s.endedAt ==> Offset(s, counter) == Minute(next) - c)
  {
    var e := Minute(s.endedAt);
    assert counter == Minute(counter) * 60000 + counter % 60000;
    assert s.endedAt == e * 60000 + s.endedAt % 60000;
  }

  lemma SoFarStep(acc: Acc, cal: Calendar, s: Session, counter: int, below: bool)
    requires s.joinedAt <= counter < s.endedAt && counter % 60000 == s.joinedAt % 60000
    ensures SoFar(acc, cal, s, NextHour(counter), below)
         == SoFar(acc, cal, s, counter, below)
            + (if Below60(acc, cal, Block(counter)) == below then Offset(s, counter) else 0)
  {
    HourStep(s, counter);
    var next, c, e := NextHour(counter), Minute(counter), Minute(s.endedAt);
    if next < s.endedAt {
      CountInBlock(acc, cal, Minute(s.joinedAt), c, Minute(next), below);
    } else {
      CountInBlock(acc, cal, Minute(s.joinedAt), c, e, below);
    }
  }

  method SplitSession(acc: Accumulator, cal: Calendar, s: Session) returns (contribution: int, skipped: int)
    ensures contribution == LoopMinutes(acc.days, cal, s, true)
    ensures skipped == LoopMinutes(acc.days, cal, s, false)
  {
    var counter := s.joinedAt;
    contribution, skipped := 0, 0;
    while counter < s.endedAt
      invariant counter >= s.joinedAt && counter % 60000 == s.joinedAt % 60000
      invariant contribution == SoFar(acc.days, cal, s, counter, true)
      invariant skipped == SoFar(acc.days, cal, s, counter, false)
      decreases s.endedAt - counter
    {
      HourStep(s, counter);
      SoFarStep(acc.days, cal, s, counter, true);
      SoFarStep(acc.days, cal, s, counter, false);
      var offset := 60 - Minute(counter) % 60;
      var nextHour := counter + offset * 60000;
      if nextHour > s.endedAt {
        offset := Minute(s.endedAt) % 60 - Minute(counter) % 60;
      }
      var block := acc.Read(DayAt(cal, counter), HourAt(cal, counter));
      if block < 60 {
        contribution := contribution + offset;
      } else {
        skipped := skipped + offset;
      }
      counter := nextHour;
    }
  }
}
