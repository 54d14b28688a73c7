/**
 * The integer part of autopost.py `stats_command`: which counts enter the
 * "days left" ratios and with which divisor, which ratio is the bottleneck,
 * and how many days of picture posts and of video posts are left.
 *
 * A ratio `count / divisor` is kept as the pair and compared by cross
 * multiplication; `int(count / divisor)` is `count / divisor` on naturals.
 */
module StatsReport {
  import opened Categories
  import Forecast

  type Stats = Forecast.Stats

  /** A key of the statistics: a category's file count, or the anecdotes. */
  datatype Key = Counted(category: Category) | AnecdoteKey

  function KeyName(k: Key): string
  {
    match k
    case Counted(c) => Name(c)
    case AnecdoteKey => "anecdotes"
  }

  function Count(s: Stats, k: Key): nat
  {
    match k
    case AnecdoteKey => s.anecdotes
    case Counted(c) =>
      match c
      case EroAnime => s.eroAnime
      case EroReal => s.eroReal
      case SingleMeme => s.singleMeme
      case StandartArt => s.standartArt
      case StandartMeme => s.standartMeme
      case VideoMeme => s.videoMeme
      case VideoEro => s.videoEro
      case VideoAuto => s.videoAuto
  }

  /** The categories a post can do without, taking standart-meme or video-meme instead. */
  predicate Replaceable(k: Key)
  {
    k.Counted? && k.category in {StandartArt, SingleMeme, VideoEro, VideoAuto}
  }

  /** The keys ratios are made for, in the order `stats_command` adds them. */
  const MainKeys: seq<Key> :=
    [Counted(EroReal), Counted(EroAnime), Counted(StandartMeme), AnecdoteKey, Counted(VideoMeme)]

  /** The keys of `replaceable_categories`, in the order they are added. */
  const ReplaceableKeys: seq<Key> :=
    [Counted(StandartArt), Counted(SingleMeme), Counted(VideoEro), Counted(VideoAuto)]

  /** The keys whose ratios count for picture posts. */
  predicate IsPictureKey(k: Key)
  {
    k in {Counted(EroReal), Counted(EroAnime), Counted(StandartMeme), AnecdoteKey}
  }

  /**
   * `total_meme_needed`: nine standart-meme a day, plus one for every
   * standart-art and single-meme short of the three a day uses.
   */
  function MemeDivisor(s: Stats): (d: nat)
    ensures 9 <= d <= 15
    ensures d == 9 <==> s.standartArt >= 3 && s.singleMeme >= 3
    ensures d == 15 <==> s.standartArt == 0 && s.singleMeme == 0
  {
    9 + Forecast.Shortfall(3, s.standartArt) + Forecast.Shortfall(3, s.singleMeme)
  }

  /**
   * `needed_meme_videos`: one video-meme a post, one more without any
   * video-ero, and one for each video-auto short of two.
   */
  function VideoDivisor(s: Stats): (d: nat)
    ensures 1 <= d <= 4
    ensures d == 1 <==> s.videoEro >= 1 && s.videoAuto >= 2
    ensures d == 4 <==> s.videoEro == 0 && s.videoAuto == 0
  {
    1 + (if s.videoEro == 0 then 1 else 0) + Forecast.Shortfall(2, s.videoAuto)
  }

  /** The number each key's count is divided by. */
  function Divisor(s: Stats, k: Key): (d: nat)
    ensures d >= 1
  {
    match k
    case AnecdoteKey => 4
    case Counted(c) =>
      match c
      case EroReal => 9
      case EroAnime => 6
      case StandartMeme => MemeDivisor(s)
      case VideoMeme => VideoDivisor(s)
      case StandartArt => 3
      case SingleMeme => 3
      case VideoEro => 1
      case VideoAuto => 2
  }

  /** The standart-meme divisor is what one full day takes from standart-meme. */
  lemma MemeDivisorIsDayDemand(a: Stats)
    requires Forecast.Fits(Forecast.FullDay, a)
    ensures a.standartMeme - Forecast.Spend(Forecast.FullDay, a).standartMeme == MemeDivisor(a)
  {
  }

  // ---------------------------------------------------------------- ratios

  datatype Ratio = Ratio(key: Key, count: nat, divisor: nat)

  /** The entry for `k`, present only when its count is not zero. */
  function Entry(s: Stats, k: Key): seq<Ratio>
  {
    if Count(s, k) != 0 then [Ratio(k, Count(s, k), Divisor(s, k))] else []
  }

  /** The entries for `ks`, in the order of `ks`. */
  function Entries(s: Stats, ks: seq<Key>): seq<Ratio>
  {
    if ks == [] then [] else Entries(s, ks[..|ks| - 1]) + Entry(s, ks[|ks| - 1])
  }

  /** The `ratios` dictionary of `stats_command`, in insertion order. */
  function Ratios(s: Stats): seq<Ratio>
  {
    Entries(s, MainKeys)
  }

  /** Its `replaceable_categories` dictionary, in insertion order. */
  function ReplaceableRatios(s: Stats): seq<Ratio>
  {
    Entries(s, ReplaceableKeys)
  }

  predicate HasKey(rs: seq<Ratio>, k: Key)
  {
    exists x | x in rs :: x.key == k
  }

  /** Every ratio's division is defined. */
  predicate Positive(rs: seq<Ratio>)
  {
    forall i | 0 <= i < |rs| :: rs[i].divisor >= 1
  }

  /** An entry is made for exactly the keys of `ks` whose count is not zero, and holds that count and divisor. */
  lemma {:induction false} EntriesMembers(s: Stats, ks: seq<Key>)
    ensures forall x :: x in Entries(s, ks) <==>
      x.key in ks && Count(s, x.key) != 0 && x == Ratio(x.key, Count(s, x.key), Divisor(s, x.key))
    decreases |ks|
  {
    if ks != [] {
      var init := ks[..|ks| - 1];
      EntriesMembers(s, init);
      assert ks == init + [ks[|ks| - 1]];
      forall x
        ensures x in Entries(s, ks) <==>
          x.key in ks && Count(s, x.key) != 0 && x == Ratio(x.key, Count(s, x.key), Divisor(s, x.key))
      {
        assert x.key in ks <==> x.key in init || x.key == ks[|ks| - 1];
      }
    }
  }

  /** Every entry has a count and a divisor of at least 1. */
  lemma EntriesPositive(s: Stats, ks: seq<Key>)
    ensures Positive(Entries(s, ks))
    ensures forall i | 0 <= i < |Entries(s, ks)| :: Entries(s, ks)[i].count >= 1
  {
    EntriesMembers(s, ks);
    var rs := Entries(s, ks);
    forall i | 0 <= i < |rs|
      ensures rs[i].divisor >= 1 && rs[i].count >= 1
    {
      assert rs[i] in rs;
    }
  }

  lemma MainKeysAreTheIrreplaceable(k: Key)
    ensures k in MainKeys <==> !Replaceable(k)
    ensures k in ReplaceableKeys <==> Replaceable(k)
  {
    match k
    case AnecdoteKey =>
    case Counted(c) =>
      match c
      case EroAnime =>
      case EroReal =>
      case SingleMeme =>
      case StandartArt =>
      case StandartMeme =>
      case VideoMeme =>
      case VideoEro =>
      case VideoAuto =>
  }

  /**
   * A key has a ratio exactly when it is not replaceable and its count is not
   * zero, and it is listed among the replaceable categories exactly when it is
   * replaceable and its count is not zero; so every key with a non-zero count
   * is in exactly one of the two.
   */
  lemma RatioKeys(s: Stats, k: Key)
    ensures HasKey(Ratios(s), k) <==> !Replaceable(k) && Count(s, k) != 0
    ensures HasKey(ReplaceableRatios(s), k) <==> Replaceable(k) && Count(s, k) != 0
  {
    EntriesMembers(s, MainKeys);
    EntriesMembers(s, ReplaceableKeys);
    MainKeysAreTheIrreplaceable(k);
    if Count(s, k) != 0 {
      var x := Ratio(k, Count(s, k), Divisor(s, k));
      assert x.key == k;
    }
  }

  /** There is no ratio at all exactly when the five counts behind them are zero. */
  lemma NoRatios(s: Stats)
    ensures Ratios(s) == [] <==>
      s.eroReal == 0 && s.eroAnime == 0 && s.standartMeme == 0 && s.anecdotes == 0 && s.videoMeme == 0
  {
    EntriesMembers(s, MainKeys);
    if Ratios(s) == [] {
      forall k | k in MainKeys
        ensures Count(s, k) == 0
      {
        var x := Ratio(k, Count(s, k), Divisor(s, k));
        assert x !in Ratios(s);
      }
      assert Count(s, Counted(EroReal)) == 0 && Count(s, Counted(EroAnime)) == 0;
      assert Count(s, Counted(StandartMeme)) == 0 && Count(s, AnecdoteKey) == 0;
      assert Count(s, Counted(VideoMeme)) == 0;
    } else {
      var x := Ratios(s)[0];
      assert x in Ratios(s);
    }
  }

  /** The entries of a list grown by one key. */
  lemma EntriesSnoc(s: Stats, ks: seq<Key>, k: Key)
    ensures Entries(s, ks + [k]) == Entries(s, ks) + Entry(s, k)
  {
    assert (ks + [k])[..|ks|] == ks;
  }

  /** The ratios one key at a time. */
  lemma RatiosUnfold(s: Stats)
    ensures Ratios(s) == Entry(s, Counted(EroReal)) + Entry(s, Counted(EroAnime))
      + Entry(s, Counted(StandartMeme)) + Entry(s, AnecdoteKey) + Entry(s, Counted(VideoMeme))
  {
    var k1, k2, k3, k4, k5 := Counted(EroReal), Counted(EroAnime), Counted(StandartMeme), AnecdoteKey, Counted(VideoMeme);
    EntriesSnoc(s, [], k1);
    assert [] + [k1] == [k1];
    EntriesSnoc(s, [k1], k2);
    assert [k1] + [k2] == [k1, k2];
    EntriesSnoc(s, [k1, k2], k3);
    assert [k1, k2] + [k3] == [k1, k2, k3];
    EntriesSnoc(s, [k1, k2, k3], k4);
    assert [k1, k2, k3] + [k4] == [k1, k2, k3, k4];
    EntriesSnoc(s, [k1, k2, k3, k4], k5);
    assert [k1, k2, k3, k4] + [k5] == MainKeys;
  }

  /** The replaceable categories one key at a time. */
  lemma ReplaceableUnfold(s: Stats)
    ensures ReplaceableRatios(s) == Entry(s, Counted(StandartArt)) + Entry(s, Counted(SingleMeme))
      + Entry(s, Counted(VideoEro)) + Entry(s, Counted(VideoAuto))
  {
    var k1, k2, k3, k4 := Counted(StandartArt), Counted(SingleMeme), Counted(VideoEro), Counted(VideoAuto);
    EntriesSnoc(s, [], k1);
    assert [] + [k1] == [k1];
    EntriesSnoc(s, [k1], k2);
    assert [k1] + [k2] == [k1, k2];
    EntriesSnoc(s, [k1, k2], k3);
    assert [k1, k2] + [k3] == [k1, k2, k3];
    EntriesSnoc(s, [k1, k2, k3], k4);
    assert [k1, k2, k3] + [k4] == ReplaceableKeys;
  }

  /** The `ratios` dictionary, filled as `stats_command` fills it. */
  method CollectRatios(s: Stats) returns (ratios: seq<Ratio>)
    ensures ratios == Ratios(s)
  {
    ratios := [];
    if s.eroReal != 0 {
      ratios := ratios + [Ratio(Counted(EroReal), s.eroReal, 9)];
    }
    assert ratios == Entry(s, Counted(EroReal));
    ghost var before := ratios;
    if s.eroAnime != 0 {
      ratios := ratios + [Ratio(Counted(EroAnime), s.eroAnime, 6)];
    }
    assert ratios == before + Entry(s, Counted(EroAnime));
    before := ratios;
    if s.standartMeme != 0 {
      var baseMemeNeeded := 9;
      var additionalForArt := 0;
      if s.standartArt < 3 {
        additionalForArt := 3 - s.standartArt;
      }
      var additionalForSingle := 0;
      if s.singleMeme < 3 {
        additionalForSingle := 3 - s.singleMeme;
      }
      var totalMemeNeeded := baseMemeNeeded + additionalForArt + additionalForSingle;
      assert totalMemeNeeded == MemeDivisor(s);
      ratios := ratios + [Ratio(Counted(StandartMeme), s.standartMeme, totalMemeNeeded)];
    }
    assert ratios == before + Entry(s, Counted(StandartMeme));
    before := ratios;
    if s.anecdotes != 0 {
      ratios := ratios + [Ratio(AnecdoteKey, s.anecdotes, 4)];
    }
    assert ratios == before + Entry(s, AnecdoteKey);
    before := ratios;
    if s.videoMeme != 0 {
      var neededMemeVideos := 1;
      if s.videoEro == 0 {
        neededMemeVideos := neededMemeVideos + 1;
      }
      if s.videoAuto < 2 {
        neededMemeVideos := neededMemeVideos + (2 - s.videoAuto);
      }
      assert neededMemeVideos == VideoDivisor(s);
      ratios := ratios + [Ratio(Counted(VideoMeme), s.videoMeme, neededMemeVideos)];
    }
    assert ratios == before + Entry(s, Counted(VideoMeme));
    RatiosUnfold(s);
  }

  /** The `replaceable_categories` dictionary, filled as `stats_command` fills it. */
  method CollectReplaceable(s: Stats) returns (spare: seq<Ratio>)
    ensures spare == ReplaceableRatios(s)
  {
    spare := [];
    if s.standartArt != 0 {
      spare := spare + [Ratio(Counted(StandartArt), s.standartArt, 3)];
    }
    assert spare == Entry(s, Counted(StandartArt));
    ghost var before := spare;
    if s.singleMeme != 0 {
      spare := spare + [Ratio(Counted(SingleMeme), s.singleMeme, 3)];
    }
    assert spare == before + Entry(s, Counted(SingleMeme));
    before := spare;
    if s.videoEro != 0 {
      spare := spare + [Ratio(Counted(VideoEro), s.videoEro, 1)];
    }
    assert spare == before + Entry(s, Counted(VideoEro));
    before := spare;
    if s.videoAuto != 0 {
      spare := spare + [Ratio(Counted(VideoAuto), s.videoAuto, 2)];
    }
    assert spare == before + Entry(s, Counted(VideoAuto));
    ReplaceableUnfold(s);
  }

  // ---------------------------------------------------------------- comparing ratios

  /** `a`'s value is smaller than `b`'s. */
  predicate Below(a: Ratio, b: Ratio)
  {
    a.count * b.divisor < b.count * a.divisor
  }

  /** `a`'s value is at most `b`'s. */
  predicate NotAbove(a: Ratio, b: Ratio)
  {
    a.count * b.divisor <= b.count * a.divisor
  }

  lemma MulLess(x: nat, y: nat, k: nat)
    requires x < y && k >= 1
    ensures x * k < y * k
  {
  }

  lemma MulAtMost(x: nat, y: nat, k: nat)
    requires x <= y
    ensures x * k <= y * k
  {
  }

  lemma CancelLess(x: nat, y: nat, k: nat)
    requires x * k < y * k
    ensures x < y
  {
    if y <= x {
      MulAtMost(y, x, k);
    }
  }

  /** Smaller than something no larger than `c` is smaller than `c`. */
  lemma BelowNotAbove(a: Ratio, b: Ratio, c: Ratio)
    requires a.divisor >= 1 && b.divisor >= 1 && c.divisor >= 1
    requires Below(a, b) && NotAbove(b, c)
    ensures Below(a, c)
  {
    var ac, ad, bc, bd, cc, cd := a.count, a.divisor, b.count, b.divisor, c.count, c.divisor;
    MulLess(ac * bd, bc * ad, cd);
    MulAtMost(bc * cd, cc * bd, ad);
    assert ac * bd * cd == (ac * cd) * bd;
    assert bc * ad * cd == bc * cd * ad;
    assert cc * bd * ad == (cc * ad) * bd;
    CancelLess(ac * cd, cc * ad, bd);
  }

  /** `q * d <= c` bounds `q` by the quotient. */
  lemma AtMostQuotient(q: nat, c: nat, d: nat)
    requires d >= 1 && q * d <= c
    ensures q <= c / d
  {
    var r := c / d;
    assert (r + 1) * d == r * d + d;
    CancelLess(q, r + 1, d);
  }

  /** Taking integer parts keeps the order of two ratios. */
  lemma FloorMonotone(a: Ratio, b: Ratio)
    requires a.divisor >= 1 && b.divisor >= 1 && NotAbove(a, b)
    ensures a.count / a.divisor <= b.count / b.divisor
  {
    var q := a.count / a.divisor;
    assert q * a.divisor <= a.count;
    MulAtMost(q * a.divisor, a.count, b.divisor);
    assert q * a.divisor * b.divisor == (q * b.divisor) * a.divisor;
    assert b.count * a.divisor == a.divisor * b.count;
    if b.count < q * b.divisor {
      MulLess(b.count, q * b.divisor, a.divisor);
    }
    AtMostQuotient(q, b.count, b.divisor);
  }

  /**
   * `rs[m]` is the key `min(ratios, key=ratios.get)` returns: no value is
   * smaller, and every earlier one is larger.
   */
  predicate FirstMinimal(rs: seq<Ratio>, m: nat)
  {
    && m < |rs|
    && (forall j | 0 <= j < |rs| :: NotAbove(rs[m], rs[j]))
    && (forall j | 0 <= j < m :: Below(rs[m], rs[j]))
  }

  /** `min` over the ratios: a scan that keeps the first smallest value. */
  method MinRatio(rs: seq<Ratio>) returns (m: nat)
    requires rs != [] && Positive(rs)
    ensures FirstMinimal(rs, m)
  {
    m := 0;
    var i := 1;
    while i < |rs|
      invariant 1 <= i <= |rs| && m < i
      invariant forall j | 0 <= j < i :: NotAbove(rs[m], rs[j])
      invariant forall j | 0 <= j < m :: Below(rs[m], rs[j])
    {
      if Below(rs[i], rs[m]) {
        forall j | 0 <= j < i
          ensures Below(rs[i], rs[j])
        {
          BelowNotAbove(rs[i], rs[m], rs[j]);
        }
        m := i;
      }
      i := i + 1;
    }
  }

  /** What an empty `ratios` reports as the bottleneck category. */
  const NoData: string := "нет данных"

  /**
   * `bottleneck_category, bottleneck_posts`: the key of the first smallest
   * ratio and that ratio's integer part, or `NoData` and 0 without ratios.
   */
  predicate IsBottleneck(rs: seq<Ratio>, category: string, days: nat)
  {
    if rs == [] then category == NoData && days == 0
    else exists m | 0 <= m < |rs| ::
      && FirstMinimal(rs, m) && category == KeyName(rs[m].key)
      && rs[m].divisor >= 1 && days == rs[m].count / rs[m].divisor
  }

  method Bottleneck(ratios: seq<Ratio>) returns (category: string, days: nat)
    requires Positive(ratios)
    ensures IsBottleneck(ratios, category, days)
  {
    if |ratios| > 0 {
      var m := MinRatio(ratios);
      category := KeyName(ratios[m].key);
      days := ratios[m].count / ratios[m].divisor;
    } else {
      category := NoData;
      days := 0;
    }
  }

  /** The bottleneck's days are the fewest any ratio gives, and it names a key that has a ratio. */
  lemma BottleneckIsLeast(rs: seq<Ratio>, category: string, days: nat)
    requires Positive(rs) && rs != [] && IsBottleneck(rs, category, days)
    ensures forall j | 0 <= j < |rs| :: days <= rs[j].count / rs[j].divisor
    ensures exists x | x in rs :: KeyName(x.key) == category
  {
    var m :| 0 <= m < |rs| && FirstMinimal(rs, m) && category == KeyName(rs[m].key)
      && days == rs[m].count / rs[m].divisor;
    forall j | 0 <= j < |rs|
      ensures days <= rs[j].count / rs[j].divisor
    {
      FloorMonotone(rs[m], rs[j]);
    }
    assert rs[m] in rs;
  }

  // ---------------------------------------------------------------- picture days

  /** `pic_ratios`: the ratios of the picture keys, in their order. */
  function PictureRatios(rs: seq<Ratio>): (r: seq<Ratio>)
    ensures forall x :: x in r <==> x in rs && IsPictureKey(x.key)
  {
    if rs == [] then []
    else (if IsPictureKey(rs[0].key) then [rs[0]] else []) + PictureRatios(rs[1..])
  }

  lemma PictureRatiosPositive(rs: seq<Ratio>)
    requires Positive(rs)
    ensures Positive(PictureRatios(rs))
  {
    var pics := PictureRatios(rs);
    forall i | 0 <= i < |pics|
      ensures pics[i].divisor >= 1
    {
      assert pics[i] in rs;
      var j :| 0 <= j < |rs| && rs[j] == pics[i];
    }
  }

  /** `days` is the integer part of the first smallest ratio of `rs`, or 0 when `rs` is empty. */
  predicate IsLeastFloor(rs: seq<Ratio>, days: nat)
  {
    if rs == [] then days == 0
    else exists m | 0 <= m < |rs| ::
      FirstMinimal(rs, m) && rs[m].divisor >= 1 && days == rs[m].count / rs[m].divisor
  }

  /** `pics_days`: the integer part of the smallest picture ratio, 0 without any. */
  method PicsDays(ratios: seq<Ratio>) returns (days: nat)
    requires Positive(ratios)
    ensures IsLeastFloor(PictureRatios(ratios), days)
    ensures forall x | x in PictureRatios(ratios) :: x.divisor >= 1 && days <= x.count / x.divisor
  {
    var pics := PictureRatios(ratios);
    PictureRatiosPositive(ratios);
    if |pics| > 0 {
      var m := MinRatio(pics);
      days := pics[m].count / pics[m].divisor;
      forall x | x in pics
        ensures x.divisor >= 1 && days <= x.count / x.divisor
      {
        var j :| 0 <= j < |pics| && pics[j] == x;
        FloorMonotone(pics[m], pics[j]);
      }
    } else {
      days := 0;
    }
  }

  /** `n` feasible full days need at least `n` times each picture key's divisor. */
  lemma DayDemand(s: Stats, n: nat, k: Key)
    requires Forecast.Feasible(Forecast.FullDay, s, n) && IsPictureKey(k)
    ensures n * Divisor(s, k) <= Count(s, k)
  {
    if k == Counted(StandartMeme) {
      Forecast.CoversShortfall(s.standartMeme, 9 * n, 3 * n, s.standartArt, s.singleMeme);
      MemeDemand(n, s.standartMeme, s.standartArt, s.singleMeme);
    }
  }

  /** Covering `n` days' standart-meme covers `n` times one day's. */
  lemma MemeDemand(n: nat, meme: nat, art: nat, single: nat)
    requires 9 * n + Forecast.Shortfall(3 * n, art) + Forecast.Shortfall(3 * n, single) <= meme
    ensures n * (9 + Forecast.Shortfall(3, art) + Forecast.Shortfall(3, single)) <= meme
  {
    var x, y := Forecast.Shortfall(3, art), Forecast.Shortfall(3, single);
    ShortfallScales(n, art);
    ShortfallScales(n, single);
    assert n * (9 + x + y) == 9 * n + n * x + n * y;
  }

  /** A shortfall over `n` days is at least `n` times the shortfall of one. */
  lemma ShortfallScales(n: nat, have: nat)
    ensures n * Forecast.Shortfall(3, have) <= Forecast.Shortfall(3 * n, have)
  {
    if have == 0 {
    } else if have == 1 {
      assert n * 2 <= 3 * n - 1 || n == 0;
    } else if have == 2 {
      assert n * 1 <= 3 * n - 2 || n == 0;
    }
  }

  /**
   * The picture days `stats_command` reports never undercount the full days
   * `predict_full_days` allows: every picture ratio's integer part is at
   * least the number of feasible days, and without picture ratios no day is
   * feasible.
   */
  lemma PicsDaysCoverFullDays(s: Stats, n: nat)
    requires Forecast.Feasible(Forecast.FullDay, s, n)
    ensures forall x | x in PictureRatios(Ratios(s)) :: x.divisor >= 1 && n <= x.count / x.divisor
    ensures PictureRatios(Ratios(s)) == [] ==> n == 0
  {
    EntriesMembers(s, MainKeys);
    forall x | x in PictureRatios(Ratios(s))
      ensures x.divisor >= 1 && n <= x.count / x.divisor
    {
      DayDemand(s, n, x.key);
      AtMostQuotient(n, x.count, x.divisor);
    }
    if s.eroReal != 0 {
      var x := Ratio(Counted(EroReal), s.eroReal, 9);
      assert x in PictureRatios(Ratios(s));
    }
  }

  // ---------------------------------------------------------------- video days

  /** The posts each phase of the `video_days` computation counts. */
  datatype Phases = Phases(first: nat, second: nat, third: nat)
  {
    function Total(): nat
    {
      first + second + third
    }
  }

  function Min3(a: nat, b: nat, c: nat): nat
  {
    Forecast.Min(a, Forecast.Min(b, c))
  }

  /**
   * Phases two and three on what phase one left: posts of three video-meme
   * and a video-ero, then posts of four video-meme, each with an anecdote,
   * and only while the anecdotes left over are positive.
   */
  function LaterPhases(meme: nat, ero: nat, anecdotes: int): (r: (nat, nat))
    ensures r.0 <= ero && 3 * r.0 + 4 * r.1 <= meme
    ensures anecdotes <= 0 ==> r == (0, 0)
    ensures anecdotes >= 0 ==> r.0 + r.1 <= anecdotes
    ensures anecdotes >= 0 ==> meme - 3 * r.0 < 3 || r.0 == ero || r.0 == anecdotes
    ensures anecdotes >= 0 ==> meme - 3 * r.0 - 4 * r.1 < 4 || r.0 + r.1 == anecdotes
  {
    var phase2: nat :=
      if meme >= 3 && ero > 0 && anecdotes > 0 then Min3(meme / 3, ero, anecdotes) else 0;
    var remainingMeme := meme - phase2 * 3;
    var remainingAnecdotes := anecdotes - phase2;
    var phase3: nat :=
      if remainingMeme >= 4 && remainingAnecdotes > 0 then Forecast.Min(remainingMeme / 4, remainingAnecdotes) else 0;
    (phase2, phase3)
  }

  /**
   * `video_days` as written: phase one posts with two video-auto, a video-ero
   * and a video-meme each, without looking at the anecdotes; so it can count
   * more posts than there are anecdotes, after which the later phases count none.
   */
  function VideoPhasesAsWritten(s: Stats): (r: Phases)
    ensures s.videoMeme == 0 ==> r == Phases(0, 0, 0)
    ensures 2 * r.first <= s.videoAuto && r.first + r.second <= s.videoEro
    ensures r.first + 3 * r.second + 4 * r.third <= s.videoMeme
    ensures r.first <= s.anecdotes ==> r.Total() <= s.anecdotes
    ensures r.first > s.anecdotes ==> r.second == 0 && r.third == 0
  {
    if s.videoMeme == 0 then Phases(0, 0, 0)
    else
      var autoPairs := s.videoAuto / 2;
      var phase1 := Min3(autoPairs, s.videoEro, s.videoMeme);
      var later := LaterPhases(s.videoMeme - phase1, s.videoEro - phase1, s.anecdotes - phase1);
      Phases(phase1, later.0, later.1)
  }

  /** A video-meme, a video-ero and two video-auto, and no anecdote, count as a day of video posts. */
  lemma VideoDaysOutrunAnecdotes()
    ensures var s := Forecast.Stats(0, 0, 0, 0, 0, 1, 1, 2, 0);
      s.anecdotes == 0 && VideoPhasesAsWritten(s).Total() == 1
  {
  }

  /**
   * `video_days` with phase one also bounded by the anecdotes, as phases two
   * and three are: every counted day has its anecdote and its video-meme, and
   * its video-ero and video-auto where it does not substitute them; and each
   * phase goes on until one of the things it needs runs out.
   */
  function VideoPhases(s: Stats): (r: Phases)
    ensures s.videoMeme == 0 ==> r == Phases(0, 0, 0)
    ensures 2 * r.first <= s.videoAuto && r.first + r.second <= s.videoEro
    ensures r.first + 3 * r.second + 4 * r.third <= s.videoMeme
    ensures r.Total() <= s.anecdotes
    ensures s.videoMeme != 0 ==>
      s.videoAuto - 2 * r.first < 2 || r.first == s.videoEro || r.first == s.videoMeme || r.first == s.anecdotes
    ensures s.videoMeme != 0 ==>
      s.videoMeme - r.first - 3 * r.second < 3 || r.first + r.second == s.videoEro
      || r.first + r.second == s.anecdotes
    ensures s.videoMeme != 0 ==>
      s.videoMeme - r.first - 3 * r.second - 4 * r.third < 4 || r.Total() == s.anecdotes
  {
    if s.videoMeme == 0 then Phases(0, 0, 0)
    else
      var autoPairs := s.videoAuto / 2;
      var phase1 := Forecast.Min(Min3(autoPairs, s.videoEro, s.videoMeme), s.anecdotes);
      var later := LaterPhases(s.videoMeme - phase1, s.videoEro - phase1, s.anecdotes - phase1);
      Phases(phase1, later.0, later.1)
  }

  /** Where phase one does not outrun the anecdotes, the bound changes nothing. */
  lemma CorrectionAgrees(s: Stats)
    requires VideoPhasesAsWritten(s).first <= s.anecdotes
    ensures VideoPhases(s) == VideoPhasesAsWritten(s)
  {
  }

  // ---------------------------------------------------------------- the report

  /** The figures `stats_command` reports, apart from the text and the quiz and quote counts. */
  datatype Report = Report(
    ratios: seq<Ratio>, spare: seq<Ratio>,
    bottleneckCategory: string, bottleneckDays: nat,
    picsDays: nat, videoDays: nat)

  /** Phases two and three of `video_days`, on the counters phase one left. */
  method LaterPhaseDays(meme: nat, ero: nat, anecdotes: int) returns (phase2: nat, phase3: nat)
    ensures (phase2, phase3) == LaterPhases(meme, ero, anecdotes)
  {
    var remainingMeme := meme;
    var remainingAnecdotes := anecdotes;
    phase2 := 0;
    if remainingMeme >= 3 && ero > 0 && remainingAnecdotes > 0 {
      phase2 := Min3(remainingMeme / 3, ero, remainingAnecdotes);
      remainingMeme := remainingMeme - phase2 * 3;
      remainingAnecdotes := remainingAnecdotes - phase2;
    }
    phase3 := 0;
    if remainingMeme >= 4 && remainingAnecdotes > 0 {
      phase3 := Forecast.Min(remainingMeme / 4, remainingAnecdotes);
    }
  }

  /**
   * The `video_days` statements of `stats_command`, phase by phase on the
   * `remaining_*` counters; `remaining_anecdotes` may go below zero.
   */
  method VideoDays(s: Stats) returns (videoDays: nat)
    ensures videoDays == VideoPhasesAsWritten(s).Total()
    ensures VideoPhasesAsWritten(s).first <= s.anecdotes ==> videoDays == VideoPhases(s).Total() && videoDays <= s.anecdotes
  {
    videoDays := 0;
    if s.videoMeme != 0 {
      var autoPairs := s.videoAuto / 2;
      var phase1 := Min3(autoPairs, s.videoEro, s.videoMeme);
      var remainingMeme := s.videoMeme - phase1;
      var remainingEro := s.videoEro - phase1;
      var remainingAnecdotes: int := s.anecdotes - phase1;
      var phase2, phase3 := LaterPhaseDays(remainingMeme, remainingEro, remainingAnecdotes);
      videoDays := phase1 + phase2 + phase3;
    }
    if VideoPhasesAsWritten(s).first <= s.anecdotes {
      CorrectionAgrees(s);
    }
  }

  /**
   * `stats_command` without its text: the two tables, the bottleneck, the
   * picture days and the video days, as the source computes them.
   */
  method StatsCommand(s: Stats) returns (r: Report)
    ensures r.ratios == Ratios(s) && r.spare == ReplaceableRatios(s)
    ensures IsBottleneck(r.ratios, r.bottleneckCategory, r.bottleneckDays)
    ensures IsLeastFloor(PictureRatios(r.ratios), r.picsDays)
    ensures forall n: nat :: Forecast.Feasible(Forecast.FullDay, s, n) ==> n <= r.picsDays
    ensures r.videoDays == VideoPhasesAsWritten(s).Total()
    ensures VideoPhasesAsWritten(s).first <= s.anecdotes ==> r.videoDays == VideoPhases(s).Total() && r.videoDays <= s.anecdotes
  {
    var ratios := CollectRatios(s);
    var spare := CollectReplaceable(s);
    EntriesPositive(s, MainKeys);
    var category, days := Bottleneck(ratios);
    var picsDays := PicsDays(ratios);
    forall n: nat | Forecast.Feasible(Forecast.FullDay, s, n)
      ensures n <= picsDays
    {
      PicsDaysCoverFullDays(s, n);
      if PictureRatios(ratios) != [] {
        var x := PictureRatios(ratios)[0];
        assert x in PictureRatios(ratios);
      }
    }
    var videoDays := VideoDays(s);
    r := Report(ratios, spare, category, days, picsDays, videoDays);
  }
}
