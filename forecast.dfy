/**
 * The inventory forecasts of utils_autopost.py: how many ten-picture posts,
 * three-video posts and full days the current counts allow
 * (`predict_10pics_posts`, `predict_3videos_posts`, `predict_full_days`).
 *
 * Each forecast is a loop that checks whether one more post (or day) fits
 * into a working copy of the counts and, if so, deducts it. `Fits` and
 * `Spend` state one step; `Run` chains them. Independently of the loops,
 * `Feasible` says in closed form when `n` steps fit and `After` what they
 * leave, and `RunMatchesClosedForm` proves the two descriptions agree.
 */
module Forecast {
  import opened Wrappers

  /** The counts `get_available_stats()` reports, one per category plus the anecdotes. */
  datatype Stats = Stats(
    eroAnime: nat, eroReal: nat, singleMeme: nat, standartArt: nat, standartMeme: nat,
    videoMeme: nat, videoEro: nat, videoAuto: nat, anecdotes: nat)

  /** The three things the forecasts count. */
  datatype Plan = TenPictures | ThreeVideos | FullDay

  /** `max(0, need - have)`: how many of `need` uses fall back when only `have` are at hand. */
  function Shortfall(need: nat, have: nat): nat
  {
    if have < need then need - have else 0
  }

  function Min(a: nat, b: nat): nat
  {
    if a < b then a else b
  }

  /** `t` holds at least as much of everything as `s`. */
  predicate AtMost(s: Stats, t: Stats)
  {
    && s.eroAnime <= t.eroAnime && s.eroReal <= t.eroReal && s.singleMeme <= t.singleMeme
    && s.standartArt <= t.standartArt && s.standartMeme <= t.standartMeme
    && s.videoMeme <= t.videoMeme && s.videoEro <= t.videoEro && s.videoAuto <= t.videoAuto
    && s.anecdotes <= t.anecdotes
  }

  // ---------------------------------------------------------------- one step

  /**
   * The checks a loop makes before it deducts one more step from the copy `a`.
   * A ten-picture post needs an anecdote, three ero-real, two ero-anime and
   * three standart-meme, plus one standart-meme for each of standart-art and
   * single-meme that is used up. A three-video post needs an anecdote and a
   * video-meme, plus one for each of video-ero and video-auto that is used up.
   * A day is three picture posts and one video post.
   */
  predicate Fits(p: Plan, a: Stats)
  {
    match p
    case TenPictures =>
      && a.anecdotes >= 1 && a.eroReal >= 3 && a.eroAnime >= 2
      && a.standartMeme >= 3 + Shortfall(1, a.standartArt) + Shortfall(1, a.singleMeme)
    case ThreeVideos =>
      a.anecdotes >= 1 && a.videoMeme >= 1 + Shortfall(1, a.videoEro) + Shortfall(1, a.videoAuto)
    case FullDay =>
      && a.anecdotes >= 4 && a.eroReal >= 9 && a.eroAnime >= 6
      && a.standartMeme >= 9 + Shortfall(3, a.standartArt) + Shortfall(3, a.singleMeme)
      && a.videoMeme >= 1 + Shortfall(1, a.videoEro) + Shortfall(1, a.videoAuto)
  }

  /** The copy after one more step is deducted. */
  function Spend(p: Plan, a: Stats): Stats
    requires Fits(p, a)
  {
    match p
    case TenPictures =>
      a.(anecdotes := a.anecdotes - 1, eroReal := a.eroReal - 3, eroAnime := a.eroAnime - 2,
         standartArt := a.standartArt - Min(1, a.standartArt),
         singleMeme := a.singleMeme - Min(1, a.singleMeme),
         standartMeme := a.standartMeme - 3 - Shortfall(1, a.standartArt) - Shortfall(1, a.singleMeme))
    case ThreeVideos =>
      a.(anecdotes := a.anecdotes - 1,
         videoMeme := a.videoMeme - 1 - Shortfall(1, a.videoEro) - Shortfall(1, a.videoAuto),
         videoEro := a.videoEro - Min(1, a.videoEro),
         videoAuto := a.videoAuto - Min(1, a.videoAuto))
    case FullDay =>
      Stats(
        eroAnime := a.eroAnime - 6,
        eroReal := a.eroReal - 9,
        singleMeme := a.singleMeme - Min(3, a.singleMeme),
        standartArt := a.standartArt - Min(3, a.standartArt),
        standartMeme := a.standartMeme - 9 - Shortfall(3, a.standartArt) - Shortfall(3, a.singleMeme),
        videoMeme := a.videoMeme - 1 - Shortfall(1, a.videoEro) - Shortfall(1, a.videoAuto),
        videoEro := a.videoEro - Min(1, a.videoEro),
        videoAuto := a.videoAuto - Min(1, a.videoAuto),
        anecdotes := a.anecdotes - 4)
  }

  /** `n` steps one after the other, or `None` when one of them does not fit. */
  function Run(p: Plan, s: Stats, n: nat): Option<Stats>
    decreases n
  {
    if n == 0 then Some(s)
    else match Run(p, s, n - 1)
      case None => None
      case Some(a) => if Fits(p, a) then Some(Spend(p, a)) else None
  }

  /** A run that reached `a` goes one step further exactly when `a` fits. */
  lemma RunExtends(p: Plan, s: Stats, n: nat, a: Stats)
    requires Run(p, s, n) == Some(a)
    ensures Fits(p, a) ==> Run(p, s, n + 1) == Some(Spend(p, a))
    ensures !Fits(p, a) ==> Run(p, s, n + 1) == None
  {
  }

  // ---------------------------------------------------------------- the loops

  /** `predict_10pics_posts(stats)`. */
  method PredictTenPicsPosts(stats: Stats) returns (posts: nat)
    ensures Run(TenPictures, stats, posts).Some? && Run(TenPictures, stats, posts + 1).None?
    ensures Feasible(TenPictures, stats, posts) && !Feasible(TenPictures, stats, posts + 1)
    ensures posts <= stats.anecdotes && posts <= stats.eroReal / 3 && posts <= stats.eroAnime / 2
  {
    var st := stats;
    posts := 0;
    while true
      invariant Run(TenPictures, stats, posts) == Some(st)
      decreases st.anecdotes
    {
      if st.anecdotes < 1 { break; }
      if st.eroReal < 3 { break; }
      if st.eroAnime < 2 { break; }
      if st.standartMeme < 3 { break; }
      var additionalMeme := 0;
      if st.standartArt < 1 { additionalMeme := additionalMeme + 1; }
      if st.singleMeme < 1 { additionalMeme := additionalMeme + 1; }
      if st.standartMeme < 3 + additionalMeme { break; }

      ghost var a := st;
      st := SpendTenPictures(st, additionalMeme);
      RunExtends(TenPictures, stats, posts, a);
      posts := posts + 1;
    }
    ForecastIsLargestFeasible(TenPictures, stats, posts);
  }

  /** `predict_3videos_posts(stats)`. */
  method PredictThreeVideosPosts(stats: Stats) returns (posts: nat)
    ensures Run(ThreeVideos, stats, posts).Some? && Run(ThreeVideos, stats, posts + 1).None?
    ensures Feasible(ThreeVideos, stats, posts) && !Feasible(ThreeVideos, stats, posts + 1)
    ensures posts <= stats.anecdotes && posts <= stats.videoMeme
  {
    var st := stats;
    posts := 0;
    while true
      invariant Run(ThreeVideos, stats, posts) == Some(st)
      decreases st.anecdotes
    {
      if st.anecdotes < 1 { break; }
      if st.videoMeme < 1 { break; }
      var neededMeme := 1;
      if st.videoEro < 1 { neededMeme := neededMeme + 1; }
      if st.videoAuto < 1 { neededMeme := neededMeme + 1; }
      if st.videoMeme < neededMeme { break; }

      ghost var a := st;
      st := SpendThreeVideos(st, neededMeme);
      RunExtends(ThreeVideos, stats, posts, a);
      posts := posts + 1;
    }
    ForecastIsLargestFeasible(ThreeVideos, stats, posts);
  }

  /** `predict_full_days(stats)`. */
  method PredictFullDays(stats: Stats) returns (days: nat)
    ensures Run(FullDay, stats, days).Some? && Run(FullDay, stats, days + 1).None?
    ensures Feasible(FullDay, stats, days) && !Feasible(FullDay, stats, days + 1)
    ensures days <= stats.anecdotes / 4
  {
    var st := stats;
    days := 0;
    while true
      invariant Run(FullDay, stats, days) == Some(st)
      decreases st.anecdotes
    {
      if st.anecdotes < 4 { break; }
      if st.eroReal < 9 { break; }
      if st.eroAnime < 6 { break; }
      var fallbackMeme := 0;
      var neededArt := 3;
      if st.standartArt < neededArt { fallbackMeme := fallbackMeme + (neededArt - st.standartArt); }
      var neededSingle := 3;
      if st.singleMeme < neededSingle { fallbackMeme := fallbackMeme + (neededSingle - st.singleMeme); }
      var totalMemeNeeded := 9 + fallbackMeme;
      if st.standartMeme < totalMemeNeeded { break; }
      var neededMeme := 1;
      if st.videoEro < 1 { neededMeme := neededMeme + 1; }
      if st.videoAuto < 1 { neededMeme := neededMeme + 1; }
      if st.videoMeme < neededMeme { break; }

      ghost var a := st;
      st := SpendDay(st, neededArt, neededSingle, neededMeme);
      RunExtends(FullDay, stats, days, a);
      days := days + 1;
    }
    ForecastIsLargestFeasible(FullDay, stats, days);
  }

  /**
   * The deductions `predict_10pics_posts` makes for a post once its checks
   * have passed: a standart-art and a single-meme where there is one, a
   * standart-meme in place of each missing one.
   */
  method SpendTenPictures(a: Stats, additionalMeme: nat) returns (st: Stats)
    requires Fits(TenPictures, a) && additionalMeme == Shortfall(1, a.standartArt) + Shortfall(1, a.singleMeme)
    ensures st == Spend(TenPictures, a)
  {
    st := a;
    st := st.(anecdotes := st.anecdotes - 1, eroReal := st.eroReal - 3, eroAnime := st.eroAnime - 2);
    st := st.(standartMeme := st.standartMeme - 3);
    if st.standartArt >= 1 {
      st := st.(standartArt := st.standartArt - 1);
    } else {
      st := st.(standartMeme := st.standartMeme - 1);
    }
    if st.singleMeme >= 1 {
      st := st.(singleMeme := st.singleMeme - 1);
    } else {
      st := st.(standartMeme := st.standartMeme - 1);
    }
  }

  /**
   * The deductions `predict_3videos_posts` makes for a post once its checks
   * have passed: the video-meme it counted, and a video-ero and a video-auto
   * where there is one.
   */
  method SpendThreeVideos(a: Stats, neededMeme: nat) returns (st: Stats)
    requires Fits(ThreeVideos, a) && neededMeme == 1 + Shortfall(1, a.videoEro) + Shortfall(1, a.videoAuto)
    ensures st == Spend(ThreeVideos, a)
  {
    st := a;
    st := st.(anecdotes := st.anecdotes - 1);
    st := st.(videoMeme := st.videoMeme - neededMeme);
    if st.videoEro >= 1 {
      st := st.(videoEro := st.videoEro - 1);
    }
    if st.videoAuto >= 1 {
      st := st.(videoAuto := st.videoAuto - 1);
    }
  }

  /**
   * The deductions `predict_full_days` makes for a day once its checks have
   * passed: three each of standart-art and single-meme where there are, the
   * rest from standart-meme, and one video post.
   */
  method SpendDay(a: Stats, neededArt: nat, neededSingle: nat, neededMeme: nat) returns (st: Stats)
    requires Fits(FullDay, a) && neededArt == 3 && neededSingle == 3
    requires neededMeme == 1 + Shortfall(1, a.videoEro) + Shortfall(1, a.videoAuto)
    ensures st == Spend(FullDay, a)
  {
    st := a;
    st := st.(anecdotes := st.anecdotes - 4, eroReal := st.eroReal - 9, eroAnime := st.eroAnime - 6);
    st := st.(standartMeme := st.standartMeme - 9);
    if st.standartArt >= neededArt {
      st := st.(standartArt := st.standartArt - neededArt);
    } else {
      var usedArt := st.standartArt;
      st := st.(standartArt := 0);
      st := st.(standartMeme := st.standartMeme - (neededArt - usedArt));
    }
    if st.singleMeme >= neededSingle {
      st := st.(singleMeme := st.singleMeme - neededSingle);
    } else {
      var usedSingle := st.singleMeme;
      st := st.(singleMeme := 0);
      st := st.(standartMeme := st.standartMeme - (neededSingle - usedSingle));
    }
    st := st.(videoMeme := st.videoMeme - neededMeme);
    if st.videoEro >= 1 {
      st := st.(videoEro := st.videoEro - 1);
    }
    if st.videoAuto >= 1 {
      st := st.(videoAuto := st.videoAuto - 1);
    }
  }

  // ---------------------------------------------------------------- closed forms

  /**
   * `n` steps fit into `s`, as linear bounds. Ten-picture posts: `n`
   * anecdotes, `3n` ero-real, `2n` ero-anime, and standart-meme for its own
   * `3n` slots plus the `n` standart-art and `n` single-meme slots their own
   * stock does not cover. Three-video posts: `n` anecdotes, and video-meme for
   * `n` slots plus the `n` video-ero and `n` video-auto slots not covered.
   * A day: three picture posts and a video post, four anecdotes.
   */
  predicate Feasible(p: Plan, s: Stats, n: nat)
  {
    match p
    case TenPictures =>
      && n <= s.anecdotes && 3 * n <= s.eroReal && 2 * n <= s.eroAnime
      && Covers(s.standartMeme, 3 * n, n, s.standartArt, s.singleMeme)
    case ThreeVideos =>
      n <= s.anecdotes && Covers(s.videoMeme, n, n, s.videoEro, s.videoAuto)
    case FullDay =>
      && 4 * n <= s.anecdotes && 9 * n <= s.eroReal && 6 * n <= s.eroAnime
      && Covers(s.standartMeme, 9 * n, 3 * n, s.standartArt, s.singleMeme)
      && Covers(s.videoMeme, n, n, s.videoEro, s.videoAuto)
  }

  /**
   * A backup stock `m` covers `own` slots of its own and two groups of `k`
   * slots served first by stocks `x` and `y`: `own + max(0, k - x) + max(0, k - y) <= m`,
   * written as the four linear bounds it amounts to.
   */
  predicate Covers(m: nat, own: nat, k: nat, x: nat, y: nat)
  {
    own <= m && own + k <= m + x && own + k <= m + y && own + 2 * k <= m + x + y
  }

  /** The linear form says what the shortfall form says. */
  lemma CoversShortfall(m: nat, own: nat, k: nat, x: nat, y: nat)
    ensures Covers(m, own, k, x, y) <==> own + Shortfall(k, x) + Shortfall(k, y) <= m
  {
  }

  /** How many video posts `n` steps contain. */
  function VideoPosts(p: Plan, n: nat): nat
  {
    match p
    case TenPictures => 0
    case ThreeVideos => n
    case FullDay => n
  }

  /**
   * How many ten-picture posts `n` steps contain; each has one standart-art
   * slot and one single-meme slot.
   */
  function PicturePosts(p: Plan, n: nat): nat
  {
    match p
    case TenPictures => n
    case ThreeVideos => 0
    case FullDay => 3 * n
  }

  /** The copy left after `n` feasible steps. */
  function After(p: Plan, s: Stats, n: nat): Stats
    requires Feasible(p, s, n)
  {
    var k, v := PicturePosts(p, n), VideoPosts(p, n);
    Stats(
      eroAnime := s.eroAnime - 2 * k,
      eroReal := s.eroReal - 3 * k,
      singleMeme := s.singleMeme - Min(k, s.singleMeme),
      standartArt := s.standartArt - Min(k, s.standartArt),
      standartMeme := s.standartMeme - 3 * k - Shortfall(k, s.standartArt) - Shortfall(k, s.singleMeme),
      videoMeme := s.videoMeme - v - Shortfall(v, s.videoEro) - Shortfall(v, s.videoAuto),
      videoEro := s.videoEro - Min(v, s.videoEro),
      videoAuto := s.videoAuto - Min(v, s.videoAuto),
      anecdotes := s.anecdotes - k - v)
  }

  /**
   * A stock `have` serving `a` slots and then `k` more serves `b = a + k` in all:
   * the shortfall of the last `k` is the growth of the total shortfall, and
   * what is left is what the last `k` leave of what the first `a` left.
   */
  lemma Piece(k: nat, a: nat, b: nat, have: nat)
    requires b == a + k
    ensures Shortfall(k, have - Min(a, have)) == Shortfall(b, have) - Shortfall(a, have)
    ensures have - Min(b, have) == (have - Min(a, have)) - Min(k, have - Min(a, have))
  {
  }

  /** The per-resource facts behind one more step on top of `After(p, s, n)`. */
  lemma StepArithmetic(p: Plan, s: Stats, n: nat)
    ensures var a, b, k := PicturePosts(p, n), PicturePosts(p, n + 1), PicturePosts(p, 1);
      && Shortfall(k, s.standartArt - Min(a, s.standartArt)) == Shortfall(b, s.standartArt) - Shortfall(a, s.standartArt)
      && s.standartArt - Min(b, s.standartArt) == (s.standartArt - Min(a, s.standartArt)) - Min(k, s.standartArt - Min(a, s.standartArt))
      && Shortfall(k, s.singleMeme - Min(a, s.singleMeme)) == Shortfall(b, s.singleMeme) - Shortfall(a, s.singleMeme)
      && s.singleMeme - Min(b, s.singleMeme) == (s.singleMeme - Min(a, s.singleMeme)) - Min(k, s.singleMeme - Min(a, s.singleMeme))
    ensures var a, b, k := VideoPosts(p, n), VideoPosts(p, n + 1), VideoPosts(p, 1);
      && Shortfall(k, s.videoEro - Min(a, s.videoEro)) == Shortfall(b, s.videoEro) - Shortfall(a, s.videoEro)
      && s.videoEro - Min(b, s.videoEro) == (s.videoEro - Min(a, s.videoEro)) - Min(k, s.videoEro - Min(a, s.videoEro))
      && Shortfall(k, s.videoAuto - Min(a, s.videoAuto)) == Shortfall(b, s.videoAuto) - Shortfall(a, s.videoAuto)
      && s.videoAuto - Min(b, s.videoAuto) == (s.videoAuto - Min(a, s.videoAuto)) - Min(k, s.videoAuto - Min(a, s.videoAuto))
  {
    var a, b, k := PicturePosts(p, n), PicturePosts(p, n + 1), PicturePosts(p, 1);
    Piece(k, a, b, s.standartArt);
    Piece(k, a, b, s.singleMeme);
    var c, d, l := VideoPosts(p, n), VideoPosts(p, n + 1), VideoPosts(p, 1);
    Piece(l, c, d, s.videoEro);
    Piece(l, c, d, s.videoAuto);
  }

  /** The linear bounds for `n + 1` steps, in the shortfall form `Fits` checks. */
  lemma CoversNext(p: Plan, s: Stats, n: nat)
    ensures match p
      case TenPictures =>
        Covers(s.standartMeme, 3 * (n + 1), n + 1, s.standartArt, s.singleMeme) <==>
        3 * (n + 1) + Shortfall(n + 1, s.standartArt) + Shortfall(n + 1, s.singleMeme) <= s.standartMeme
      case ThreeVideos =>
        Covers(s.videoMeme, n + 1, n + 1, s.videoEro, s.videoAuto) <==>
        (n + 1) + Shortfall(n + 1, s.videoEro) + Shortfall(n + 1, s.videoAuto) <= s.videoMeme
      case FullDay =>
        && (Covers(s.standartMeme, 9 * (n + 1), 3 * (n + 1), s.standartArt, s.singleMeme) <==>
            9 * (n + 1) + Shortfall(3 * (n + 1), s.standartArt) + Shortfall(3 * (n + 1), s.singleMeme) <= s.standartMeme)
        && (Covers(s.videoMeme, n + 1, n + 1, s.videoEro, s.videoAuto) <==>
            (n + 1) + Shortfall(n + 1, s.videoEro) + Shortfall(n + 1, s.videoAuto) <= s.videoMeme)
  {
    CoversShortfall(s.standartMeme, 3 * (n + 1), n + 1, s.standartArt, s.singleMeme);
    CoversShortfall(s.videoMeme, n + 1, n + 1, s.videoEro, s.videoAuto);
    CoversShortfall(s.standartMeme, 9 * (n + 1), 3 * (n + 1), s.standartArt, s.singleMeme);
  }

  /** The first step the closed form does not allow is one that does not fit. */
  lemma StopStep(p: Plan, s: Stats, n: nat)
    requires Feasible(p, s, n) && !Feasible(p, s, n + 1)
    ensures !Fits(p, After(p, s, n))
  {
    StepArithmetic(p, s, n);
    CoversNext(p, s, n);
  }

  /** A step the closed form allows fits. */
  lemma NextFits(p: Plan, s: Stats, n: nat)
    requires Feasible(p, s, n) && Feasible(p, s, n + 1)
    ensures Fits(p, After(p, s, n))
  {
    StepArithmetic(p, s, n);
    CoversNext(p, s, n);
  }

  /** And it leaves what the closed form says `n + 1` steps leave. */
  lemma SpendStep(p: Plan, s: Stats, n: nat)
    requires Feasible(p, s, n) && Feasible(p, s, n + 1)
    ensures Fits(p, After(p, s, n)) && Spend(p, After(p, s, n)) == After(p, s, n + 1)
  {
    NextFits(p, s, n);
    StepArithmetic(p, s, n);
  }

  /** Once a run has stopped it stays stopped. */
  lemma {:induction false} RunStaysNone(p: Plan, s: Stats, m: nat, n: nat)
    requires Run(p, s, m) == None && m <= n
    ensures Run(p, s, n) == None
    decreases n - m
  {
    if m < n {
      RunStaysNone(p, s, m, n - 1);
      assert Run(p, s, n - 1) == None;
    }
  }

  /** No steps always fit. */
  lemma NothingIsFeasible(p: Plan, s: Stats)
    ensures Feasible(p, s, 0)
  {
  }

  /** And they leave the counts as they are. */
  lemma NothingLeavesAll(p: Plan, s: Stats)
    ensures After(p, s, 0) == s
  {
  }

  /** Between a number where `f` holds and a larger one where it fails lies a last one where it holds. */
  lemma {:induction false} LastBefore(f: nat -> bool, n: nat) returns (m: nat)
    requires f(0) && !f(n)
    ensures m < n && f(m) && !f(m + 1)
    decreases n
  {
    if f(n - 1) {
      m := n - 1;
    } else {
      m := LastBefore(f, n - 1);
    }
  }

  /** Below an infeasible number of steps lies a last feasible one. */
  lemma LastFeasible(p: Plan, s: Stats, n: nat) returns (m: nat)
    requires !Feasible(p, s, n)
    ensures m < n && Feasible(p, s, m) && !Feasible(p, s, m + 1)
  {
    NothingIsFeasible(p, s);
    m := LastBefore((k: nat) => Feasible(p, s, k), n);
  }

  /** A feasible number of steps runs through and leaves what the closed form says. */
  lemma {:induction false} RunAfter(p: Plan, s: Stats, n: nat)
    requires Feasible(p, s, n)
    ensures Run(p, s, n) == Some(After(p, s, n))
    decreases n
  {
    if n == 0 {
      NothingLeavesAll(p, s);
    } else {
      var k := n - 1;
      Downward(p, s, n, k);
      RunAfter(p, s, k);
      RunAfterStep(p, s, k);
      assert k + 1 == n;
    }
  }

  lemma RunAfterStep(p: Plan, s: Stats, k: nat)
    requires Feasible(p, s, k) && Feasible(p, s, k + 1) && Run(p, s, k) == Some(After(p, s, k))
    ensures Run(p, s, k + 1) == Some(After(p, s, k + 1))
  {
    SpendStep(p, s, k);
    RunExtends(p, s, k, After(p, s, k));
  }

  /** An infeasible number of steps stops at the first step that does not fit. */
  lemma RunNone(p: Plan, s: Stats, n: nat)
    requires !Feasible(p, s, n)
    ensures Run(p, s, n) == None
  {
    var m := LastFeasible(p, s, n);
    RunAfter(p, s, m);
    StopStep(p, s, m);
    RunExtends(p, s, m, After(p, s, m));
    RunStaysNone(p, s, m + 1, n);
  }

  /**
   * The step-by-step run and the closed form agree: `n` steps run through
   * exactly when they are feasible, and they leave `After(p, s, n)`.
   */
  lemma RunMatchesClosedForm(p: Plan, s: Stats, n: nat)
    ensures Run(p, s, n).Some? <==> Feasible(p, s, n)
    ensures Feasible(p, s, n) ==> Run(p, s, n) == Some(After(p, s, n))
  {
    if Feasible(p, s, n) {
      RunAfter(p, s, n);
    } else {
      RunNone(p, s, n);
    }
  }

  lemma RunFeasible(p: Plan, s: Stats, n: nat)
    ensures Run(p, s, n).Some? <==> Feasible(p, s, n)
  {
    RunMatchesClosedForm(p, s, n);
  }

  /**
   * What the loops return is the forecast the closed form gives: the largest
   * number of steps that fit, with every smaller number fitting too.
   */
  lemma ForecastIsLargestFeasible(p: Plan, s: Stats, n: nat)
    requires Run(p, s, n).Some? && Run(p, s, n + 1).None?
    ensures Feasible(p, s, n) && !Feasible(p, s, n + 1)
    ensures forall m: nat :: Feasible(p, s, m) <==> m <= n
  {
    RunFeasible(p, s, n);
    RunFeasible(p, s, n + 1);
    forall m: nat
      ensures Feasible(p, s, m) <==> m <= n
    {
      if m <= n {
        Downward(p, s, n, m);
      } else {
        Beyond(p, s, n + 1, m);
      }
    }
  }

  /** Once `n` steps do not fit, no larger number does. */
  lemma Beyond(p: Plan, s: Stats, n: nat, m: nat)
    requires !Feasible(p, s, n) && n <= m
    ensures !Feasible(p, s, m)
  {
  }

  /** Fewer steps always fit, so a forecast is the number of steps that fit. */
  lemma Downward(p: Plan, s: Stats, n: nat, m: nat)
    requires Feasible(p, s, n) && m <= n
    ensures Feasible(p, s, m)
  {
  }

  /** More stock never forecasts fewer steps. */
  lemma Monotone(p: Plan, s: Stats, t: Stats, n: nat)
    requires AtMost(s, t) && Feasible(p, s, n)
    ensures Feasible(p, t, n)
  {
  }

  /**
   * A ten-picture post takes one anecdote, three ero-real, two ero-anime and
   * five pictures from standart-meme, standart-art and single-meme together,
   * using standart-art and single-meme while one is left, and no video.
   */
  lemma TenPicturesCost(a: Stats)
    requires Fits(TenPictures, a)
    ensures var b := Spend(TenPictures, a);
      && a.anecdotes - b.anecdotes == 1 && a.eroReal - b.eroReal == 3 && a.eroAnime - b.eroAnime == 2
      && (a.standartMeme + a.standartArt + a.singleMeme) - (b.standartMeme + b.standartArt + b.singleMeme) == 5
      && (a.standartArt - b.standartArt == 1 <==> a.standartArt >= 1)
      && (a.singleMeme - b.singleMeme == 1 <==> a.singleMeme >= 1)
      && b.videoMeme == a.videoMeme && b.videoEro == a.videoEro && b.videoAuto == a.videoAuto
  {
  }

  /**
   * A three-video post takes one anecdote and three videos, one to three of
   * them video-meme, using video-ero and video-auto while one is left, and no picture.
   */
  lemma ThreeVideosCost(a: Stats)
    requires Fits(ThreeVideos, a)
    ensures var b := Spend(ThreeVideos, a);
      && a.anecdotes - b.anecdotes == 1
      && (a.videoMeme + a.videoEro + a.videoAuto) - (b.videoMeme + b.videoEro + b.videoAuto) == 3
      && 1 <= a.videoMeme - b.videoMeme <= 3
      && (a.videoEro - b.videoEro == 1 <==> a.videoEro >= 1)
      && (a.videoAuto - b.videoAuto == 1 <==> a.videoAuto >= 1)
      && b.eroReal == a.eroReal && b.eroAnime == a.eroAnime && b.standartMeme == a.standartMeme
      && b.standartArt == a.standartArt && b.singleMeme == a.singleMeme
  {
  }

  /**
   * A day takes four anecdotes, nine ero-real, six ero-anime and fifteen
   * pictures from standart-meme, standart-art and single-meme together: what
   * three ten-picture posts take. On the video side it takes three videos:
   * what one three-video post takes.
   */
  lemma FullDayCost(a: Stats)
    requires Fits(FullDay, a)
    ensures var b := Spend(FullDay, a);
      && a.anecdotes - b.anecdotes == 4 && a.eroReal - b.eroReal == 9 && a.eroAnime - b.eroAnime == 6
      && (a.standartMeme + a.standartArt + a.singleMeme) - (b.standartMeme + b.standartArt + b.singleMeme) == 15
      && a.standartArt - b.standartArt == Min(3, a.standartArt)
      && a.singleMeme - b.singleMeme == Min(3, a.singleMeme)
      && (a.videoMeme + a.videoEro + a.videoAuto) - (b.videoMeme + b.videoEro + b.videoAuto) == 3
  {
  }
}
