/** The home page: which tournaments are listed as upcoming and which as
    held, in what order and how many, the link on an upcoming card, and the
    `?tid=` deep link that makes a tournament active. Dates are day numbers
    and today's date is a parameter. */
module Tournaments {
  import opened Wrappers
  import opened PyInt
  import opened Ordering
  import opened Settings

  datatype Tournament = Tournament(
    tournamentId: Option<int>, name: Option<string>, start: Option<int>, end: Option<int>)

  const UpcomingCap: nat := 6
  const HeldCap: nat := 12

  /** Start missing or not before today, or end missing or not before today. */
  predicate Upcoming(t: Tournament, today: int) {
    (t.start.None? || t.start.value >= today) || (t.end.None? || t.end.value >= today)
  }

  /** Ended before today, or without an end date and started before today. */
  predicate Held(t: Tournament, today: int) {
    (t.end.Some? && t.end.value < today) || (t.end.None? && t.start.Some? && t.start.value < today)
  }

  /** No tournament is left off the page: every one is upcoming or held. */
  lemma UpcomingOrHeld(t: Tournament, today: int)
    ensures Upcoming(t, today) || Held(t, today)
  {
    if !Upcoming(t, today) {
      assert t.end.Some? && t.end.value < today;
    }
  }

  /** The tournaments listed in both sections: those without an end that
      started before today, and those that ended before today but have no
      start or start today or later. */
  lemma UpcomingAndHeld(t: Tournament, today: int)
    ensures Upcoming(t, today) && Held(t, today) <==>
            (t.end.None? && t.start.Some? && t.start.value < today) ||
            (t.end.Some? && t.end.value < today && (t.start.None? || t.start.value >= today))
  {
  }

  /** The tournaments satisfying `p`, in their order. */
  function Where(ts: seq<Tournament>, p: Tournament -> bool): (r: seq<Tournament>)
    ensures forall t :: t in r <==> t in ts && p(t)
    ensures |r| <= |ts|
  {
    if ts == [] then []
    else Where(ts[..|ts| - 1], p) + (if p(ts[|ts| - 1]) then [ts[|ts| - 1]] else [])
  }

  /** A date as a sort key, earliest first and a missing date last. */
  function AscKey(d: Option<int>): seq<int> {
    if d.None? then [1, 0] else [0, d.value]
  }

  /** A date as a sort key, latest first and a missing date last. */
  function DescKey(d: Option<int>): seq<int> {
    if d.None? then [1, 0] else [0, -d.value]
  }

  /** `sort_values(by=["start_date"], na_position="last")`. */
  predicate StartBefore(a: Tournament, b: Tournament) {
    KeyLe(AscKey(a.start), AscKey(b.start))
  }

  /** `sort_values(by=["end_date", "start_date"], ascending=[False, False],
      na_position="last")`. */
  predicate HeldBefore(a: Tournament, b: Tournament) {
    KeyLe(DescKey(a.end) + DescKey(a.start), DescKey(b.end) + DescKey(b.start))
  }

  lemma StartBeforeIsTotalPreorder()
    ensures TotalPreorder(StartBefore)
  {
    forall a: Tournament, b: Tournament, c: Tournament {
      KeyLeTotalOrder(AscKey(a.start), AscKey(b.start), AscKey(c.start));
    }
  }

  lemma HeldBeforeIsTotalPreorder()
    ensures TotalPreorder(HeldBefore)
  {
    forall a: Tournament, b: Tournament, c: Tournament {
      KeyLeTotalOrder(DescKey(a.end) + DescKey(a.start), DescKey(b.end) + DescKey(b.start),
                      DescKey(c.end) + DescKey(c.start));
    }
  }

  /** Start order: a dated tournament before an undated one, and earlier
      starts first. */
  lemma StartBeforeFields(a: Tournament, b: Tournament)
    requires StartBefore(a, b)
    ensures a.start.None? ==> b.start.None?
    ensures a.start.Some? && b.start.Some? ==> a.start.value <= b.start.value
  {
    var ka, kb := AscKey(a.start), AscKey(b.start);
    if ka[0] == kb[0] {
      assert LexLe(ka[1..], kb[1..], IntLt);
    }
  }

  /** Held order: ended tournaments before the ones with no end, later ends
      first, and on equal ends later starts first. */
  lemma HeldBeforeFields(a: Tournament, b: Tournament)
    requires HeldBefore(a, b)
    ensures a.end.None? ==> b.end.None?
    ensures a.end.Some? && b.end.Some? ==> a.end.value >= b.end.value
    ensures a.end == b.end && a.start.Some? && b.start.Some? ==> a.start.value >= b.start.value
    ensures a.end == b.end && a.start.None? ==> b.start.None?
  {
    var ka, kb := DescKey(a.end) + DescKey(a.start), DescKey(b.end) + DescKey(b.start);
    if ka[0] == kb[0] {
      assert LexLe(ka[1..], kb[1..], IntLt);
      if ka[1] == kb[1] {
        assert LexLe(ka[2..], kb[2..], IntLt) by {
          assert ka[1..][1..] == ka[2..] && kb[1..][1..] == kb[2..];
        }
        if ka[2] == kb[2] {
          assert LexLe(ka[3..], kb[3..], IntLt) by {
            assert ka[2..][1..] == ka[3..] && kb[2..][1..] == kb[3..];
          }
        }
      }
    }
  }

  /** The "Upcoming Tournaments" section: the upcoming ones by start date,
      at most six. */
  function UpcomingList(ts: seq<Tournament>, today: int): seq<Tournament> {
    Head(SortBy(Where(ts, t => Upcoming(t, today)), StartBefore), UpcomingCap)
  }

  /** The "Held Tournaments" section: the held ones, latest first, at most
      twelve. */
  function HeldList(ts: seq<Tournament>, today: int): seq<Tournament> {
    Head(SortBy(Where(ts, t => Held(t, today)), HeldBefore), HeldCap)
  }

  /** At most six cards, all of upcoming tournaments, dated ones by start
      date and undated ones last; every upcoming tournament left out starts
      no earlier than each one shown; with six or fewer upcoming, all are
      shown. */
  lemma UpcomingListSpec(ts: seq<Tournament>, today: int)
    ensures |UpcomingList(ts, today)| <= UpcomingCap
    ensures forall t :: t in UpcomingList(ts, today) ==> t in ts && Upcoming(t, today)
    ensures forall i, j :: 0 <= i < j < |UpcomingList(ts, today)| ==>
              (UpcomingList(ts, today)[i].start.None? ==> UpcomingList(ts, today)[j].start.None?) &&
              (UpcomingList(ts, today)[i].start.Some? && UpcomingList(ts, today)[j].start.Some? ==>
                 UpcomingList(ts, today)[i].start.value <= UpcomingList(ts, today)[j].start.value)
    ensures forall x, y :: x in ts && Upcoming(x, today) && x !in UpcomingList(ts, today) && y in UpcomingList(ts, today) ==>
              StartBefore(y, x)
    ensures |Where(ts, t => Upcoming(t, today))| <= UpcomingCap ==>
              multiset(UpcomingList(ts, today)) == multiset(Where(ts, t => Upcoming(t, today)))
  {
    var chosen := Where(ts, t => Upcoming(t, today));
    var sorted := SortBy(chosen, StartBefore);
    var r := UpcomingList(ts, today);
    StartBeforeIsTotalPreorder();
    SortBySorted(chosen, StartBefore);
    forall t | t in r ensures t in ts && Upcoming(t, today) {
      assert t in multiset(sorted);
    }
    forall i, j | 0 <= i < j < |r|
      ensures (r[i].start.None? ==> r[j].start.None?) &&
              (r[i].start.Some? && r[j].start.Some? ==> r[i].start.value <= r[j].start.value)
    {
      assert r[i] == sorted[i] && r[j] == sorted[j];
      StartBeforeFields(sorted[i], sorted[j]);
    }
    forall x, y | x in ts && Upcoming(x, today) && x !in r && y in r
      ensures StartBefore(y, x)
    {
      HeadKeepsFirst(chosen, StartBefore, UpcomingCap, x, y);
    }
  }

  /** At most twelve cards, all of held tournaments, ordered by end date
      then start date, latest first, ended ones before the ones with no end;
      every held tournament left out comes no earlier in that order than
      each one shown; with twelve or fewer held, all are shown. */
  lemma HeldListSpec(ts: seq<Tournament>, today: int)
    ensures |HeldList(ts, today)| <= HeldCap
    ensures forall t :: t in HeldList(ts, today) ==> t in ts && Held(t, today)
    ensures forall i, j :: 0 <= i < j < |HeldList(ts, today)| ==>
              (HeldList(ts, today)[i].end.None? ==> HeldList(ts, today)[j].end.None?) &&
              (HeldList(ts, today)[i].end.Some? && HeldList(ts, today)[j].end.Some? ==>
                 HeldList(ts, today)[i].end.value >= HeldList(ts, today)[j].end.value) &&
              (HeldList(ts, today)[i].end == HeldList(ts, today)[j].end &&
               HeldList(ts, today)[i].start.Some? && HeldList(ts, today)[j].start.Some? ==>
                 HeldList(ts, today)[i].start.value >= HeldList(ts, today)[j].start.value)
    ensures forall x, y :: x in ts && Held(x, today) && x !in HeldList(ts, today) && y in HeldList(ts, today) ==>
              HeldBefore(y, x)
    ensures |Where(ts, t => Held(t, today))| <= HeldCap ==>
              multiset(HeldList(ts, today)) == multiset(Where(ts, t => Held(t, today)))
  {
    var chosen := Where(ts, t => Held(t, today));
    var sorted := SortBy(chosen, HeldBefore);
    var r := HeldList(ts, today);
    HeldBeforeIsTotalPreorder();
    SortBySorted(chosen, HeldBefore);
    forall t | t in r ensures t in ts && Held(t, today) {
      assert t in multiset(sorted);
    }
    forall i, j | 0 <= i < j < |r|
      ensures (r[i].end.None? ==> r[j].end.None?) &&
              (r[i].end.Some? && r[j].end.Some? ==> r[i].end.value >= r[j].end.value) &&
              (r[i].end == r[j].end && r[i].start.Some? && r[j].start.Some? ==> r[i].start.value >= r[j].start.value)
    {
      assert r[i] == sorted[i] && r[j] == sorted[j];
      HeldBeforeFields(sorted[i], sorted[j]);
    }
    forall x, y | x in ts && Held(x, today) && x !in r && y in r
      ensures HeldBefore(y, x)
    {
      HeadKeepsFirst(chosen, HeldBefore, HeldCap, x, y);
    }
  }

  // ------------------------------------------------------------ links

  const TidLinkPrefix: string := "/?tid="

  /** The link on an upcoming card: `/?tid=<id>`, or `#` without an id. */
  function CardHref(tid: Option<int>): (r: string)
    ensures tid.None? <==> r == "#"
  {
    if tid.Some? then TidLinkPrefix + Show(tid.value) else "#"
  }

  /** The `tid` query parameter as the page receives it: absent, one value,
      or a list of values. */
  datatype QueryParam = Absent | Single(s: string) | Multiple(xs: seq<string>)

  /** The `tid` parameter a link carries when followed. */
  function TidParam(href: string): QueryParam {
    if |href| >= |TidLinkPrefix| && href[..|TidLinkPrefix|] == TidLinkPrefix
    then Single(href[|TidLinkPrefix|..]) else Absent
  }

  /** The deep link: the first value of a list, or the single value; a
      present, non-empty value is read with `int()` and stored as the active
      tournament. Anything else, an empty list or text that is not an integer
      leaves the settings unchanged. */
  function DeepLink(store: Store, q: QueryParam): Store {
    var v: Option<string> :=
      match q
      case Absent => None
      case Single(s) => Some(s)
      case Multiple(xs) => if xs == [] then None else Some(xs[0]);
    if v.None? || v.value == "" then store
    else match ParseInt(v.value)
      case None => store
      case Some(n) => store[ActiveKey := Show(n)]
  }

  /** A value `int()` reads makes that integer the active tournament id. */
  lemma DeepLinkSpec(store: Store, s: string)
    ensures ParseInt(s).Some? ==> GetActive(DeepLink(store, Single(s))) == ParseInt(s)
  {
    if ParseInt(s).Some? {
      assert s != "" by {
        assert Strip("") == "";
      }
      var n := ParseInt(s).value;
      assert DeepLink(store, Single(s)) == SetActive(store, Some(n));
      SetThenGet(store, Some(n));
    }
  }

  /** Text `int()` rejects leaves the settings as they were. */
  lemma DeepLinkRejected(store: Store, s: string)
    requires ParseInt(s).None?
    ensures DeepLink(store, Single(s)) == store
  {
    if s != "" {
      assert DeepLink(store, Single(s)) == (match ParseInt(s) case None => store case Some(n) => store[ActiveKey := Show(n)]);
    }
  }

  /** An empty list and a missing parameter leave the settings as they were. */
  lemma DeepLinkNoValue(store: Store)
    ensures DeepLink(store, Multiple([])) == store && DeepLink(store, Absent) == store
  {
  }

  /** A deep link touches no setting but the active tournament. */
  lemma DeepLinkOtherKeys(store: Store, q: QueryParam, k: string)
    requires k != ActiveKey
    ensures GetSetting(DeepLink(store, q), k) == GetSetting(store, k)
  {
  }

  /** A list of values acts as its first value. */
  lemma DeepLinkFirstValue(store: Store, s: string, rest: seq<string>)
    ensures DeepLink(store, Multiple([s] + rest)) == DeepLink(store, Single(s))
  {
    assert ([s] + rest)[0] == s;
  }

  /** Following an upcoming card's link makes its tournament active; a card
      without an id links nowhere and changes nothing. */
  lemma CardLinkActivates(store: Store, tid: Option<int>)
    ensures tid.Some? ==> GetActive(DeepLink(store, TidParam(CardHref(tid)))) == tid
    ensures tid.None? ==> DeepLink(store, TidParam(CardHref(tid))) == store
  {
    if tid.Some? {
      var href := CardHref(tid);
      assert href[..|TidLinkPrefix|] == TidLinkPrefix;
      assert href[|TidLinkPrefix|..] == Show(tid.value);
      ParseShow(tid.value);
      DeepLinkSpec(store, Show(tid.value));
    }
  }
}
