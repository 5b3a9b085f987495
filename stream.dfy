/** The list of live pipes that Game.update walks every tick: advance, the
    one-shot scoring flag, collision over the list, and the removal of pipes
    that have left the screen. */
module Stream {
  import opened Constants
  import opened Geometry
  import opened Pipes

  /** The scoring step of the game loop: a pipe not yet passed whose right edge
      is left of the bird's x gets its flag set. */
  function Scored(p: PipeView, birdX: int): PipeView {
    if !p.passed && p.x + PipeWidth < birdX then p.(passed := true) else p
  }

  /** What one tick does to one pipe: move it, then score it. */
  function Ticked(p: PipeView, birdX: int): PipeView {
    Scored(Moved(p), birdX)
  }

  /** The scoring flag is one-shot: a pipe already passed is only moved, and a
      pipe not yet passed gets the flag exactly when its moved right edge is left
      of the bird. */
  lemma ScoringIsOneShot(p: PipeView, birdX: int)
    ensures p.passed ==> Ticked(p, birdX) == Moved(p)
    ensures !p.passed ==> (Ticked(p, birdX).passed <==> p.x - PipeSpeed + PipeWidth < birdX)
    ensures Ticked(p, birdX).(passed := p.passed) == Moved(p)
  {
  }

  /** One tick applied to every pipe of the list, in order. */
  function TickAll(ps: seq<PipeView>, birdX: int): (r: seq<PipeView>)
    ensures |r| == |ps|
    ensures forall k :: 0 <= k < |ps| ==> r[k] == Ticked(ps[k], birdX)
  {
    if ps == [] then []
    else TickAll(ps[..|ps| - 1], birdX) + [Ticked(ps[|ps| - 1], birdX)]
  }

  /** A tick moves every pipe by the same amount, so the left-to-right order is
      kept and every pipe is 3 further left. */
  lemma TickAllOrdered(ps: seq<PipeView>, birdX: int, bound: int)
    requires Ordered(ps) && forall k :: 0 <= k < |ps| ==> ps[k].x <= bound
    ensures Ordered(TickAll(ps, birdX))
    ensures forall k :: 0 <= k < |ps| ==> TickAll(ps, birdX)[k].x == ps[k].x - PipeSpeed
    ensures forall k :: 0 <= k < |ps| ==> TickAll(ps, birdX)[k].x <= bound - PipeSpeed
  {
    var r := TickAll(ps, birdX);
    assert forall k :: 0 <= k < |ps| ==> r[k].x == ps[k].x - PipeSpeed;
  }

  /** Some pipe of the list collides with the bird's square. */
  predicate AnyHits(ps: seq<PipeView>, bird: Rect) {
    exists k :: 0 <= k < |ps| && Hits(ps[k], bird)
  }

  /** The pipes that stay on screen, in their original order. */
  function Survivors(ps: seq<PipeView>): (r: seq<PipeView>)
    ensures |r| <= |ps|
  {
    if ps == [] then []
    else
      var rest := Survivors(ps[..|ps| - 1]);
      if OffScreen(ps[|ps| - 1]) then rest else rest + [ps[|ps| - 1]]
  }

  /** The pipes stand left to right in list order. */
  predicate Ordered(ps: seq<PipeView>) {
    forall i, j :: 0 <= i < j < |ps| ==> ps[i].x < ps[j].x
  }

  /** Removing off-screen pipes keeps the rest in left-to-right order. */
  lemma {:induction false} SurvivorsOrdered(ps: seq<PipeView>)
    requires Ordered(ps)
    ensures Ordered(Survivors(ps))
  {
    if ps != [] {
      var init, last := ps[..|ps| - 1], ps[|ps| - 1];
      SurvivorsOrdered(init);
      SurvivorsMembers(init);
      var rest := Survivors(init);
      if !OffScreen(last) {
        forall i, j | 0 <= i < j < |rest + [last]|
          ensures (rest + [last])[i].x < (rest + [last])[j].x
        {
          if j == |rest| {
            assert rest[i] in init;
          }
        }
      }
    }
  }

  /** The survivors are the on-screen pipes of the list and nothing else. */
  lemma {:induction false} SurvivorsMembers(ps: seq<PipeView>)
    ensures forall p :: p in Survivors(ps) <==> p in ps && !OffScreen(p)
  {
    if ps != [] {
      var init := ps[..|ps| - 1];
      SurvivorsMembers(init);
      assert ps == init + [ps[|ps| - 1]];
    }
  }

  /** Filtering commutes with concatenation, so the survivors keep their order. */
  lemma {:induction false} SurvivorsAppend(a: seq<PipeView>, b: seq<PipeView>)
    ensures Survivors(a + b) == Survivors(a) + Survivors(b)
  {
    if b == [] {
      assert a + b == a;
    } else {
      var b' := b[..|b| - 1];
      SurvivorsAppend(a, b');
      assert (a + b)[..|a + b| - 1] == a + b';
    }
  }

  /** A list with no pipe off screen loses nothing. */
  lemma {:induction false} SurvivorsKeepOnScreen(ps: seq<PipeView>)
    requires forall k :: 0 <= k < |ps| ==> !OffScreen(ps[k])
    ensures Survivors(ps) == ps
  {
    if ps != [] {
      SurvivorsKeepOnScreen(ps[..|ps| - 1]);
      assert ps[..|ps| - 1] + [ps[|ps| - 1]] == ps;
    }
  }

  /** Python's list.remove: drop the first element equal to x, which must be present. */
  function RemoveFirst<T(==)>(s: seq<T>, x: T): (r: seq<T>)
    requires x in s
    ensures |r| == |s| - 1
  {
    if s[0] == x then
      assert s == [s[0]] + s[1..];
      s[1..]
    else
      assert s == [s[0]] + s[1..];
      [s[0]] + RemoveFirst(s[1..], x)
  }

  /** What "first" means: when x does not occur before the given position, exactly
      that occurrence goes and the rest stays in order. */
  lemma {:induction false} RemoveFirstAfter<T>(a: seq<T>, x: T, b: seq<T>)
    requires x !in a
    ensures RemoveFirst(a + [x] + b, x) == a + b
  {
    if a != [] {
      assert (a + [x] + b)[1..] == a[1..] + [x] + b;
      RemoveFirstAfter(a[1..], x, b);
      assert a + b == [a[0]] + (a[1..] + b);
    }
  }

  /** x does not occur in s at position j or later. */
  predicate AbsentFrom<T(==)>(s: seq<T>, x: T, j: nat)
    decreases |s| - j
  {
    j >= |s| || (s[j] != x && AbsentFrom(s, x, j + 1))
  }

  /** No element of s at position i or later occurs again after its position. */
  predicate DistinctFrom<T(==)>(s: seq<T>, i: nat)
    decreases |s| - i
  {
    i >= |s| || (AbsentFrom(s, s[i], i + 1) && DistinctFrom(s, i + 1))
  }

  /** No object occurs twice in the list. */
  predicate Distinct<T(==)>(s: seq<T>) {
    DistinctFrom(s, 0)
  }

  lemma {:induction false} AbsentFromIff<T>(s: seq<T>, x: T, j: nat)
    ensures AbsentFrom(s, x, j) <==> forall b :: j <= b < |s| ==> s[b] != x
    decreases |s| - j
  {
    if j < |s| {
      AbsentFromIff(s, x, j + 1);
    }
  }

  lemma {:induction false} DistinctFromIff<T>(s: seq<T>, i: nat)
    ensures DistinctFrom(s, i) <==> forall a, b :: i <= a < b < |s| ==> s[a] != s[b]
    decreases |s| - i
  {
    if i < |s| {
      DistinctFromIff(s, i + 1);
      AbsentFromIff(s, s[i], i + 1);
    }
  }

  /** Distinct means pairwise different positions hold different objects. */
  lemma DistinctIff<T>(s: seq<T>)
    ensures Distinct(s) <==> forall a, b :: 0 <= a < b < |s| ==> s[a] != s[b]
  {
    DistinctFromIff(s, 0);
  }

  /** In a list without repeats, every other position holds a different object. */
  lemma DistinctOthers<T>(s: seq<T>, i: nat)
    requires Distinct(s) && i < |s|
    ensures forall k :: 0 <= k < |s| && k != i ==> s[k] != s[i]
  {
    DistinctIff(s);
  }

  lemma DistinctAppend<T>(s: seq<T>, x: T)
    requires Distinct(s) && x !in s
    ensures Distinct(s + [x])
  {
    DistinctIff(s);
    DistinctIff(s + [x]);
  }

  /** The elements of s from position i on, built without slicing. */
  function Suffix<T>(s: seq<T>, i: nat): seq<T>
    requires i <= |s|
    decreases |s| - i
  {
    if i == |s| then [] else [s[i]] + Suffix(s, i + 1)
  }

  lemma {:induction false} SuffixIsDrop<T>(s: seq<T>, i: nat)
    requires i <= |s|
    ensures Suffix(s, i) == s[i..]
    decreases |s| - i
  {
    if i < |s| {
      SuffixIsDrop(s, i + 1);
    }
  }

  lemma SuffixWhole<T>(s: seq<T>)
    ensures Suffix(s, 0) == s
  {
    SuffixIsDrop(s, 0);
  }

  /** The step of a walk over s from position i, with the walked part in front. */
  lemma Unroll<T>(done: seq<T>, s: seq<T>, i: nat)
    requires i < |s|
    ensures done + Suffix(s, i) == done + [s[i]] + Suffix(s, i + 1) == (done + [s[i]]) + Suffix(s, i + 1)
  {
  }

  /** The objects among the first i of objs whose advanced view (views[k] for
      objs[k]) is still on screen: what the live list holds of the walked part. */
  function Kept<T>(objs: seq<T>, views: seq<PipeView>, i: nat): (r: seq<T>)
    requires i <= |objs| && i <= |views|
    ensures |r| <= i
  {
    if i == 0 then []
    else
      var prev := Kept(objs, views, i - 1);
      if OffScreen(views[i - 1]) then prev else prev + [objs[i - 1]]
  }

  lemma {:induction false} KeptFrom<T>(objs: seq<T>, views: seq<PipeView>, i: nat)
    requires i <= |objs| && i <= |views|
    ensures forall q :: q in Kept(objs, views, i) ==> q in objs[..i]
  {
    if i > 0 {
      KeptFrom(objs, views, i - 1);
      assert objs[..i] == objs[..i - 1] + [objs[i - 1]];
    }
  }

  /** In a list without repeats, the object at position i is not among the kept
      objects before it. */
  lemma KeptExcludes<T>(objs: seq<T>, views: seq<PipeView>, i: nat)
    requires Distinct(objs) && i < |objs| && i <= |views|
    ensures objs[i] !in Kept(objs, views, i)
  {
    KeptFrom(objs, views, i);
    DistinctIff(objs);
  }

  lemma {:induction false} KeptDistinct<T>(objs: seq<T>, views: seq<PipeView>, i: nat)
    requires Distinct(objs) && i <= |objs| && i <= |views|
    ensures Distinct(Kept(objs, views, i))
  {
    if i > 0 {
      KeptDistinct(objs, views, i - 1);
      if !OffScreen(views[i - 1]) {
        KeptExcludes(objs, views, i - 1);
        DistinctAppend(Kept(objs, views, i - 1), objs[i - 1]);
      }
    }
  }

  /** One step of the walk over a list without repeats: the live list (kept
      walked objects, then the unwalked ones) loses the visited object exactly
      when its advanced view is off screen, and that is a removal of its first
      occurrence. */
  lemma KeptStep<T>(objs: seq<T>, views: seq<PipeView>, i: nat)
    requires Distinct(objs) && i < |objs| && i < |views|
    ensures objs[i] in Kept(objs, views, i) + Suffix(objs, i)
    ensures Kept(objs, views, i + 1) + Suffix(objs, i + 1) ==
      var live := Kept(objs, views, i) + Suffix(objs, i);
      if OffScreen(views[i]) then RemoveFirst(live, objs[i]) else live
  {
    var done := Kept(objs, views, i);
    KeptExcludes(objs, views, i);
    Unroll(done, objs, i);
    if OffScreen(views[i]) {
      RemoveFirstAfter(done, objs[i], Suffix(objs, i + 1));
    }
  }

  lemma {:induction false} KeptValid(objs: seq<Pipe>, views: seq<PipeView>, i: nat)
    requires i <= |objs| && i <= |views|
    requires forall k :: 0 <= k < i ==> objs[k].Valid()
    ensures forall q :: q in Kept(objs, views, i) ==> q.Valid()
  {
    if i > 0 {
      KeptValid(objs, views, i - 1);
    }
  }

  /** When every walked pipe shows its advanced view, the kept pipes show exactly
      the survivors of those views. */
  lemma {:induction false} ViewsOfKept(objs: seq<Pipe>, views: seq<PipeView>, i: nat)
    requires i <= |objs| && i <= |views|
    requires forall k :: 0 <= k < i ==> objs[k].View() == views[k]
    ensures Views(Kept(objs, views, i)) == Survivors(views[..i])
  {
    if i > 0 {
      ViewsOfKept(objs, views, i - 1);
      assert views[..i][..i - 1] == views[..i - 1];
      assert Survivors(views[..i]) == Survivors(views[..i - 1]) +
        (if OffScreen(views[i - 1]) then [] else [views[i - 1]]);
      if !OffScreen(views[i - 1]) {
        ViewsSnoc(Kept(objs, views, i - 1), objs[i - 1]);
      }
    }
  }

  /** The bookkeeping of the walk over a copy `objs` of the pipe list after its
      first i iterations: `live` holds the walked objects still on screen
      followed by the unwalked ones, `score` counts the flags set so far and
      `state` is game over when a walked pipe hit the bird. */
  ghost predicate Accounts<T>(objs: seq<T>, pre: seq<PipeView>, moved: seq<PipeView>, hitbox: Rect,
                              score0: nat, state0: bool, live: seq<T>, score: nat, over: bool, i: nat)
  {
    |pre| == |objs| == |moved| && i <= |objs| &&
    live == Kept(objs, moved, i) + Suffix(objs, i) &&
    score == score0 + Flips(pre[..i], moved[..i]) &&
    over == (state0 || AnyHits(moved[..i], hitbox))
  }

  /** One iteration keeps the bookkeeping: the visited object is removed from
      the live list exactly when its advanced view is off screen, the score
      grows by its flag flip and a hit ends the game. */
  lemma AccountsStep<T>(objs: seq<T>, pre: seq<PipeView>, moved: seq<PipeView>, hitbox: Rect,
                        score0: nat, state0: bool, live: seq<T>, score: nat, over: bool, i: nat)
    requires Distinct(objs) && i < |objs|
    requires Accounts(objs, pre, moved, hitbox, score0, state0, live, score, over, i)
    ensures objs[i] in live
    ensures Accounts(objs, pre, moved, hitbox, score0, state0,
      if OffScreen(moved[i]) then RemoveFirst(live, objs[i]) else live,
      score + (if !pre[i].passed && moved[i].passed then 1 else 0),
      over || Hits(moved[i], hitbox), i + 1)
  {
    KeptStep(objs, moved, i);
    WalkStep(pre, moved, i, hitbox);
  }

  /** The removal half of Game.update's loop on its own: walk a copy of the list
      and remove every off-screen pipe from the live list. */
  function RemoveWhileIterating(live: seq<PipeView>, copy: seq<PipeView>): seq<PipeView>
    decreases |copy|
  {
    if copy == [] then live
    else
      var p := copy[0];
      RemoveWhileIterating(if OffScreen(p) && p in live then RemoveFirst(live, p) else live, copy[1..])
  }

  /** The survivors of a list grown by one pipe. */
  lemma SurvivorsSnoc(ps: seq<PipeView>, p: PipeView)
    ensures Survivors(ps + [p]) == Survivors(ps) + (if OffScreen(p) then [] else [p])
  {
    assert (ps + [p])[..|ps|] == ps;
  }

  /** One iteration of that walk, on a live list whose walked part is already filtered. */
  lemma RemovalStep(done: seq<PipeView>, rest: seq<PipeView>)
    requires rest != []
    ensures RemoveWhileIterating(Survivors(done) + rest, rest) ==
            RemoveWhileIterating(Survivors(done + [rest[0]]) + rest[1..], rest[1..])
  {
    var p, tail := rest[0], rest[1..];
    var kept := Survivors(done);
    var live := kept + rest;
    assert rest == [p] + tail;
    assert live == kept + [p] + tail;
    SurvivorsSnoc(done, p);
    if OffScreen(p) {
      SurvivorsMembers(done);
      assert p !in kept;
      RemoveFirstAfter(kept, p, tail);
      assert RemoveFirst(live, p) == kept + tail;
    }
  }

  lemma {:induction false} RemoveWhileIteratingFrom(ps: seq<PipeView>, i: nat)
    requires i <= |ps|
    ensures RemoveWhileIterating(Survivors(ps[..i]) + ps[i..], ps[i..]) == Survivors(ps)
    decreases |ps| - i
  {
    if i == |ps| {
      assert ps[..i] == ps && ps[i..] == [];
    } else {
      RemovalStep(ps[..i], ps[i..]);
      assert ps[..i] + [ps[i..][0]] == ps[..i + 1];
      assert ps[i..][1..] == ps[i + 1..];
      RemoveWhileIteratingFrom(ps, i + 1);
    }
  }

  /** Iterating over a copy and removing from the live list has the net effect of
      filtering out the off-screen pipes, keeping the order of the others. */
  lemma CopyIterationIsFilter(ps: seq<PipeView>)
    ensures RemoveWhileIterating(ps, ps) == Survivors(ps)
  {
    RemoveWhileIteratingFrom(ps, 0);
    assert ps[..0] == [] && ps[0..] == ps;
    assert Survivors(ps[..0]) + ps[0..] == ps;
  }

  /** The number of scoring flags that went from false to true between two
      snapshots of the same list. */
  function Flips(before: seq<PipeView>, after: seq<PipeView>): nat
    requires |before| == |after|
  {
    if before == [] then 0
    else
      var n := |before| - 1;
      Flips(before[..n], after[..n]) + (if !before[n].passed && after[n].passed then 1 else 0)
  }

  /** One more pipe of the walk: how the survivors, the points and the collision
      flag of a prefix grow by its next element. */
  lemma WalkStep(pre: seq<PipeView>, moved: seq<PipeView>, i: nat, bird: Rect)
    requires |pre| == |moved| && i < |pre|
    ensures Survivors(moved[..i + 1]) ==
            Survivors(moved[..i]) + (if OffScreen(moved[i]) then [] else [moved[i]])
    ensures Flips(pre[..i + 1], moved[..i + 1]) ==
            Flips(pre[..i], moved[..i]) + (if !pre[i].passed && moved[i].passed then 1 else 0)
    ensures AnyHits(moved[..i + 1], bird) <==> AnyHits(moved[..i], bird) || Hits(moved[i], bird)
  {
    assert moved[..i + 1][..i] == moved[..i];
    assert pre[..i + 1][..i] == pre[..i];
    if AnyHits(moved[..i + 1], bird) && !Hits(moved[i], bird) {
      var k :| 0 <= k < i + 1 && Hits(moved[..i + 1][k], bird);
      assert moved[..i][k] == moved[..i + 1][k];
    }
    if Hits(moved[i], bird) {
      assert moved[..i + 1][i] == moved[i];
    }
    if AnyHits(moved[..i], bird) {
      var k :| 0 <= k < i && Hits(moved[..i][k], bird);
      assert moved[..i + 1][k] == moved[..i][k];
    }
  }

  /** At most one point per pipe in a tick. */
  lemma {:induction false} FlipsAtMostOnePerPipe(before: seq<PipeView>, after: seq<PipeView>)
    requires |before| == |after|
    ensures Flips(before, after) <= |before|
    ensures (forall k :: 0 <= k < |before| ==> before[k].passed) ==> Flips(before, after) == 0
  {
    if before != [] {
      var n := |before| - 1;
      FlipsAtMostOnePerPipe(before[..n], after[..n]);
    }
  }

  /** A pipe after n ticks with the bird at birdX. */
  function Aged(p: PipeView, n: nat, birdX: int): PipeView
    decreases n
  {
    if n == 0 then p else Ticked(Aged(p, n - 1, birdX), birdX)
  }

  /** A pipe spawned at x = 800 is scored on its 257th tick (the first with
      x + 70 < 100) and leaves the screen on its 291st (the first with x + 70 < 0);
      once set, its scoring flag stays set. */
  lemma {:induction false} SpawnedPipeLife(top: int, n: nat)
    requires MinSegment <= top <= MaxTop
    ensures Aged(NewPipe(ScreenWidth, top), n, BirdX) ==
            PipeView(ScreenWidth - PipeSpeed * n, top, top + PipeGap, n >= 257)
    ensures OffScreen(Aged(NewPipe(ScreenWidth, top), n, BirdX)) <==> n >= 291
  {
    if n > 0 {
      SpawnedPipeLife(top, n - 1);
    }
  }
}
