/** The guest book of src/app/pages/guest/Wishes.tsx without its rendering: the
    wishes kept in the browser's storage under "wishes", the list shown newest
    first, the submit handler and the relative time shown beside each wish. */
module WishesPage {

  import opened Seqs
  import opened Strings

  /** A wish as this page stores it; `createdAt` is the instant of its ISO
      timestamp, in milliseconds. */
  datatype LocalWish = LocalWish(id: string, name: string, message: string, createdAt: int)

  function WishTime(w: LocalWish): int { w.createdAt }

  /** `loadWishes`' order: `sort((a, b) => time(b) - time(a))`. */
  function NewestFirst(stored: seq<LocalWish>): (shown: seq<LocalWish>)
    ensures SortedDescBy(shown, WishTime)
    ensures multiset(shown) == multiset(stored)
  {
    SortByDesc(stored, WishTime)
  }

  /** Once a wish is stored with a time no earlier than any other, the list
      loaded next starts with a wish of that time, and holds it. */
  lemma LatestWishLoadsFirst(stored: seq<LocalWish>, w: LocalWish)
    requires forall v :: v in stored ==> v.createdAt <= w.createdAt
    ensures var shown := NewestFirst(stored + [w]);
      |shown| == |stored| + 1 && w in shown && shown[0].createdAt == w.createdAt
  {
    var all := stored + [w];
    var shown := NewestFirst(all);
    assert w in multiset(all);
    assert |shown| == |multiset(shown)| == |multiset(all)| == |all|;
    assert w in shown by { assert w in multiset(shown); }
    var k :| 0 <= k < |shown| && shown[k] == w;
    if k > 0 { assert WishTime(shown[0]) >= WishTime(shown[k]); }
    assert shown[0] in multiset(all) by { assert shown[0] in multiset(shown); }
    assert shown[0] in all;
  }

  // ---- formatDate ----

  /** How long ago a wish was written, in the unit `formatDate` picks. */
  datatype Age = JustNow | MinutesAgo(minutes: nat) | HoursAgo(hours: nat) | DaysAgo(days: nat)

  /** `Math.floor((now - date) / 1000)`: Dafny's `/` by a positive divisor
      already rounds down, also for a negative difference. */
  function ElapsedSeconds(createdAt: int, now: int): (s: int)
    ensures s * 1000 <= now - createdAt < s * 1000 + 1000
  {
    (now - createdAt) / 1000
  }

  function AgeOf(s: int): Age {
    if s < 60 then JustNow
    else if s < 3600 then MinutesAgo(s / 60)
    else if s < 86400 then HoursAgo(s / 3600)
    else DaysAgo(s / 86400)
  }

  function Render(a: Age): string {
    match a
    case JustNow => "Baru saja"
    case MinutesAgo(n) => NatToString(n) + " menit lalu"
    case HoursAgo(n) => NatToString(n) + " jam lalu"
    case DaysAgo(n) => NatToString(n) + " hari lalu"
  }

  /** `formatDate(createdAt)` at the instant `now`. */
  function FormatDate(createdAt: int, now: int): string {
    Render(AgeOf(ElapsedSeconds(createdAt, now)))
  }

  /** The number shown is the elapsed time rounded down to whole minutes below
      an hour, whole hours below a day and whole days beyond; under a minute,
      and for any time in the future, the text is "Baru saja". */
  lemma FormatDateBuckets(createdAt: int, now: int)
    ensures var s := ElapsedSeconds(createdAt, now);
      var a := AgeOf(s);
      && (FormatDate(createdAt, now) == "Baru saja" <==> s < 60)
      && (createdAt > now ==> FormatDate(createdAt, now) == "Baru saja")
      && (a.MinutesAgo? ==> 1 <= a.minutes < 60 && a.minutes * 60 <= s < a.minutes * 60 + 60)
      && (a.HoursAgo? ==> 1 <= a.hours < 24 && a.hours * 3600 <= s < a.hours * 3600 + 3600)
      && (a.DaysAgo? ==> 1 <= a.days && a.days * 86400 <= s < a.days * 86400 + 86400)
      && (a.MinutesAgo? <==> 60 <= s < 3600) && (a.HoursAgo? <==> 3600 <= s < 86400) && (a.DaysAgo? <==> 86400 <= s)
  {
    var s := ElapsedSeconds(createdAt, now);
    var a := AgeOf(s);
    if !a.JustNow? {
      var n := match a case MinutesAgo(m) => m case HoursAgo(h) => h case DaysAgo(d) => d case JustNow => 0;
      var r := Render(a);
      assert r[0] == NatToString(n)[0];
      assert IsDigit(r[0]);
      assert "Baru saja"[0] == 'B';
    }
  }

  // ---- the page ----

  /** The page's state: the stored list, the list shown and the form. */
  class WishBoard {
    var stored: seq<LocalWish>
    var wishes: seq<LocalWish>
    var name: string
    var message: string

    /** The page mounts over what is already stored and loads it. */
    constructor (initial: seq<LocalWish>)
      ensures stored == initial && wishes == NewestFirst(initial) && name == "" && message == ""
    {
      stored := initial;
      wishes := NewestFirst(initial);
      name := "";
      message := "";
    }

    /** `loadWishes`: the stored wishes, newest first. */
    method LoadWishes()
      modifies this
      ensures wishes == NewestFirst(stored)
      ensures stored == old(stored) && name == old(name) && message == old(message)
    {
      wishes := NewestFirst(stored);
    }

    /** `handleSubmit` at the instant `now` (milliseconds, also the new id): an
        empty name or message is refused and nothing changes; otherwise the new
        wish is pushed onto the stored list, put in front of the list shown, and
        the form is emptied. */
    method HandleSubmit(now: nat) returns (accepted: bool)
      modifies this
      ensures accepted <==> old(name) != "" && old(message) != ""
      ensures !accepted ==> stored == old(stored) && wishes == old(wishes) && name == old(name) && message == old(message)
      ensures accepted ==>
        var w := LocalWish(NatToString(now), old(name), old(message), now);
        && stored == old(stored) + [w] && wishes == [w] + old(wishes)
        && |stored| == |old(stored)| + 1 && |wishes| == |old(wishes)| + 1
        && name == "" && message == ""
    {
      if name == "" || message == "" {
        return false;
      }
      var newWish := LocalWish(NatToString(now), name, message, now);
      var storedWishes := stored;
      storedWishes := storedWishes + [newWish];
      stored := storedWishes;
      wishes := [newWish] + wishes;
      name, message := "", "";
      accepted := true;
    }
  }
}
