/** The cloud list of `CloudBackground` and the reducers that change it.
    Everything `Math.random` decides about a new cloud (image, height,
    size, duration, delay) arrives as a `Look`; the id comes from the
    shared counter. A repeat of 0 is `Once`, `Infinity` is `Forever`. */
module Clouds {

  datatype Repeat = Once | Forever

  /** The random draws of one new cloud. */
  datatype Look = Look(image: nat, top: real, size: real, duration: real, delay: real)

  datatype Cloud = Cloud(id: nat, image: nat, top: real, size: real, duration: real,
                         delay: real, repeat: Repeat)

  /** The clouds on screen and the next id the counter hands out. */
  datatype Sky = Sky(clouds: seq<Cloud>, counter: nat)

  const Empty := Sky([], 0)

  /** Clouds in the opening burst. */
  const BurstCount: nat := 50

  const MinSpeedDuration: real := 5.0
  const MaxSpeedDuration: real := 60.0

  predicate Increasing(cs: seq<Cloud>) {
    forall i, j :: 0 <= i < j < |cs| ==> cs[i].id < cs[j].id
  }

  predicate Below(cs: seq<Cloud>, bound: nat) {
    forall i :: 0 <= i < |cs| ==> cs[i].id < bound
  }

  /** Ids strictly increase along the list and are all below the counter. */
  predicate IdsIncrease(s: Sky) {
    Increasing(s.clouds) && Below(s.clouds, s.counter)
  }

  /** `generateCloud(repeat)` with draws `l`, at counter value `id`. */
  function Generate(id: nat, l: Look, repeat: Repeat): (c: Cloud)
    ensures c.id == id && c.repeat == repeat && c.duration == l.duration
    ensures c.image == l.image && c.top == l.top && c.size == l.size && c.delay == l.delay
  {
    Cloud(id, l.image, l.top, l.size, l.duration, l.delay, repeat)
  }

  /** Clouds generated in a row from counter value `from`. */
  function GenerateAll(from: nat, looks: seq<Look>, repeat: Repeat): (cs: seq<Cloud>)
    ensures |cs| == |looks|
    ensures forall k :: 0 <= k < |cs| ==> cs[k] == Generate(from + k, looks[k], repeat)
    decreases |looks|
  {
    if looks == [] then []
    else [Generate(from, looks[0], repeat)] + GenerateAll(from + 1, looks[1..], repeat)
  }

  /** `moreCloud`: one new repeating cloud at the end. */
  function MoreCloud(s: Sky, l: Look): (r: Sky)
    ensures |r.clouds| == |s.clouds| + 1 && r.clouds[..|s.clouds|] == s.clouds
    ensures r.clouds[|s.clouds|] == Generate(s.counter, l, Forever)
    ensures r.counter == s.counter + 1
    ensures IdsIncrease(s) ==> IdsIncrease(r)
  {
    Sky(s.clouds + [Generate(s.counter, l, Forever)], s.counter + 1)
  }

  /** `lessCloud`: the last cloud goes; an empty list stays empty. */
  function LessCloud(s: Sky): (r: Sky)
    ensures s.clouds == [] ==> r == s
    ensures s.clouds != [] ==> r.clouds + [s.clouds[|s.clouds| - 1]] == s.clouds
    ensures r.counter == s.counter
    ensures IdsIncrease(s) ==> IdsIncrease(r)
  {
    if |s.clouds| > 0 then s.(clouds := s.clouds[..|s.clouds| - 1]) else s
  }

  /** Adding a cloud and then removing one gives the list back. */
  lemma LessUndoesMore(s: Sky, l: Look)
    ensures LessCloud(MoreCloud(s, l)).clouds == s.clouds
  {
  }

  function Faster(d: real): real { if d * 0.8 >= 5.0 then d * 0.8 else 5.0 }

  function Slower(d: real): real { if d * 1.25 <= 60.0 then d * 1.25 else 60.0 }

  /** `increaseSpeed`: every duration becomes `max(5, 0.8 d)`; ids, order
      and every other field stay. */
  function IncreaseSpeed(s: Sky): (r: Sky)
    ensures |r.clouds| == |s.clouds| && r.counter == s.counter
    ensures forall i :: 0 <= i < |r.clouds| ==>
              && r.clouds[i] == s.clouds[i].(duration := r.clouds[i].duration)
              && r.clouds[i].duration >= MinSpeedDuration
              && r.clouds[i].duration >= s.clouds[i].duration * 0.8
              && (r.clouds[i].duration == s.clouds[i].duration * 0.8
                  || r.clouds[i].duration == MinSpeedDuration)
  {
    s.(clouds := seq(|s.clouds|, i requires 0 <= i < |s.clouds| =>
                       s.clouds[i].(duration := Faster(s.clouds[i].duration))))
  }

  /** `decreaseSpeed`: every duration becomes `min(60, 1.25 d)`. */
  function DecreaseSpeed(s: Sky): (r: Sky)
    ensures |r.clouds| == |s.clouds| && r.counter == s.counter
    ensures forall i :: 0 <= i < |r.clouds| ==>
              && r.clouds[i] == s.clouds[i].(duration := r.clouds[i].duration)
              && r.clouds[i].duration <= MaxSpeedDuration
              && r.clouds[i].duration <= s.clouds[i].duration * 1.25
              && (r.clouds[i].duration == s.clouds[i].duration * 1.25
                  || r.clouds[i].duration == MaxSpeedDuration)
  {
    s.(clouds := seq(|s.clouds|, i requires 0 <= i < |s.clouds| =>
                       s.clouds[i].(duration := Slower(s.clouds[i].duration))))
  }

  /** Every duration lies in [lo, hi]. */
  predicate DurationsWithin(s: Sky, lo: real, hi: real) {
    forall i :: 0 <= i < |s.clouds| ==> lo <= s.clouds[i].duration <= hi
  }

  /** Speeding up then slowing down restores every duration in [6.25, 48]
      (neither clamp bites), so the two buttons undo each other there. */
  lemma DecreaseUndoesIncrease(s: Sky)
    requires DurationsWithin(s, 6.25, 48.0)
    ensures DecreaseSpeed(IncreaseSpeed(s)) == s
  {
    var r := DecreaseSpeed(IncreaseSpeed(s));
    assert forall i :: 0 <= i < |s.clouds| ==> r.clouds[i] == s.clouds[i];
  }

  /** Slowing down then speeding up restores every duration in [5, 48]. */
  lemma IncreaseUndoesDecrease(s: Sky)
    requires DurationsWithin(s, 5.0, 48.0)
    ensures IncreaseSpeed(DecreaseSpeed(s)) == s
  {
    var r := IncreaseSpeed(DecreaseSpeed(s));
    assert forall i :: 0 <= i < |s.clouds| ==> r.clouds[i] == s.clouds[i];
  }

  /** Once every duration is in [5, 60], both buttons keep it there. */
  lemma SpeedButtonsKeepRange(s: Sky)
    requires DurationsWithin(s, MinSpeedDuration, MaxSpeedDuration)
    ensures DurationsWithin(IncreaseSpeed(s), MinSpeedDuration, MaxSpeedDuration)
    ensures DurationsWithin(DecreaseSpeed(s), MinSpeedDuration, MaxSpeedDuration)
  {
  }

  /** The opening burst: one `Once` cloud per draw, the i-th running at
      `0.1 + (i / 50) * 0.9` of its drawn duration, so the first are the
      fastest. The burst replaces the list. */
  function Burst(s: Sky, looks: seq<Look>): (r: Sky)
    requires |looks| == BurstCount
    ensures |r.clouds| == BurstCount && r.counter == s.counter + BurstCount
    ensures forall k :: 0 <= k < |r.clouds| ==>
              && r.clouds[k].id == s.counter + k && r.clouds[k].repeat == Once
              && r.clouds[k].duration == looks[k].duration * (0.1 + (k as real / 50.0) * 0.9)
              && r.clouds[k] == Generate(s.counter + k, looks[k], Once).(duration := r.clouds[k].duration)
    ensures IdsIncrease(r)
  {
    var cs := seq(|looks|, k requires 0 <= k < |looks| =>
                    Generate(s.counter + k, looks[k], Once)
                      .(duration := looks[k].duration * (0.1 + (k as real / 50.0) * 0.9)));
    Sky(cs, s.counter + |looks|)
  }

  /** The one-time clouds of a list, in order. */
  function OnceClouds(cs: seq<Cloud>): (r: seq<Cloud>)
    ensures |r| <= |cs|
    ensures forall c :: c in r <==> c in cs && c.repeat == Once
  {
    if cs == [] then []
    else (if cs[0].repeat == Once then [cs[0]] else []) + OnceClouds(cs[1..])
  }

  /** Filtering distributes over concatenation, so the one-time clouds keep
      their order. */
  lemma {:induction false} OnceCloudsAppend(x: seq<Cloud>, y: seq<Cloud>)
    ensures OnceClouds(x + y) == OnceClouds(x) + OnceClouds(y)
  {
    if x != [] {
      assert (x + y)[1..] == x[1..] + y;
      OnceCloudsAppend(x[1..], y);
    } else {
      assert x + y == y;
    }
  }

  /** The delayed add of `maxClouds` repeating clouds after the burst. */
  function AddRepeating(s: Sky, looks: seq<Look>): (r: Sky)
    ensures |r.clouds| == |s.clouds| + |looks| && r.clouds[..|s.clouds|] == s.clouds
    ensures r.counter == s.counter + |looks|
    ensures forall k :: 0 <= k < |looks| ==>
              r.clouds[|s.clouds| + k] == Generate(s.counter + k, looks[k], Forever)
  {
    Sky(s.clouds + GenerateAll(s.counter, looks, Forever), s.counter + |looks|)
  }

  /** The `maxClouds` effect: with clouds on screen, the one-time clouds
      stay in order and the repeating ones are replaced by exactly
      `maxClouds` = |looks| new ones; an empty list is left alone. */
  function Rebuild(s: Sky, looks: seq<Look>): (r: Sky)
    ensures s.clouds == [] ==> r == s
    ensures s.clouds != [] ==>
              && r.clouds == OnceClouds(s.clouds) + GenerateAll(s.counter, looks, Forever)
              && r.counter == s.counter + |looks|
  {
    if |s.clouds| > 0 then Sky(OnceClouds(s.clouds) + GenerateAll(s.counter, looks, Forever), s.counter + |looks|)
    else s
  }

  /** Keeping the one-time clouds keeps ids increasing and bounded. */
  lemma {:induction false} OnceCloudsIncrease(cs: seq<Cloud>, bound: nat)
    requires Increasing(cs) && Below(cs, bound)
    ensures Increasing(OnceClouds(cs)) && Below(OnceClouds(cs), bound)
  {
    if cs != [] {
      var tail := cs[1..];
      assert Increasing(tail) && Below(tail, bound) by {
        assert forall i :: 0 <= i < |tail| ==> tail[i] == cs[i + 1];
      }
      OnceCloudsIncrease(tail, bound);
      var t := OnceClouds(tail);
      if cs[0].repeat == Once {
        forall c | c in t ensures cs[0].id < c.id {
          var j :| 0 <= j < |tail| && tail[j] == c;
          assert cs[j + 1] == c;
        }
        Prepend(cs[0], t, bound);
        assert OnceClouds(cs) == [cs[0]] + t;
      } else {
        assert OnceClouds(cs) == t;
      }
    }
  }

  lemma Prepend(c: Cloud, t: seq<Cloud>, bound: nat)
    requires Increasing(t) && Below(t, bound) && c.id < bound
    requires forall d :: d in t ==> c.id < d.id
    ensures Increasing([c] + t) && Below([c] + t, bound)
  {
    var r := [c] + t;
    forall i, j | 0 <= i < j < |r| ensures r[i].id < r[j].id {
      assert r[j] == t[j - 1];
      if i > 0 { assert r[i] == t[i - 1]; } else { assert t[j - 1] in t; }
    }
    forall i | 0 <= i < |r| ensures r[i].id < bound {
      if i > 0 { assert r[i] == t[i - 1]; }
    }
  }

  /** Two increasing lists, the first wholly below the second, join into an
      increasing list. */
  lemma Join(x: seq<Cloud>, y: seq<Cloud>, mid: nat, bound: nat)
    requires Increasing(x) && Below(x, mid)
    requires Increasing(y) && Below(y, bound) && mid <= bound
    requires forall k :: 0 <= k < |y| ==> mid <= y[k].id
    ensures Increasing(x + y) && Below(x + y, bound)
  {
    var r := x + y;
    forall i, j | 0 <= i < j < |r| ensures r[i].id < r[j].id {
      if j < |x| { assert r[i] == x[i] && r[j] == x[j]; }
      else if i < |x| { assert r[i] == x[i] && r[j] == y[j - |x|]; }
      else { assert r[i] == y[i - |x|] && r[j] == y[j - |x|]; }
    }
    forall i | 0 <= i < |r| ensures r[i].id < bound {
      if i < |x| { assert r[i] == x[i]; } else { assert r[i] == y[i - |x|]; }
    }
  }

  /** Every reducer that generates clouds keeps ids strictly increasing
      along the list, so the list's React keys stay unique. */
  lemma RebuildKeepsIdsIncreasing(s: Sky, looks: seq<Look>)
    requires IdsIncrease(s)
    ensures IdsIncrease(Rebuild(s, looks))
    ensures IdsIncrease(AddRepeating(s, looks))
  {
    var g := GenerateAll(s.counter, looks, Forever);
    Join(s.clouds, g, s.counter, s.counter + |looks|);
    if s.clouds != [] {
      OnceCloudsIncrease(s.clouds, s.counter);
      Join(OnceClouds(s.clouds), g, s.counter, s.counter + |looks|);
    }
  }

  /** After the burst and the delayed add of `maxClouds` repeating clouds, a
      rebuild for a new `maxClouds` keeps the burst exactly and swaps the
      repeating clouds for the new number of them. */
  lemma RebuildKeepsBurst(s: Sky, burst: seq<Look>, first: seq<Look>, second: seq<Look>)
    requires |burst| == BurstCount
    ensures var b := Burst(s, burst);
            var a := AddRepeating(b, first);
            var r := Rebuild(a, second);
            && |r.clouds| == BurstCount + |second|
            && r.clouds[..BurstCount] == b.clouds
            && forall k :: BurstCount <= k < |r.clouds| ==> r.clouds[k].repeat == Forever
  {
    var b := Burst(s, burst);
    var a := AddRepeating(b, first);
    OnceCloudsPrefix(b.clouds, GenerateAll(b.counter, first, Forever));
    OnceCloudsAll(b.clouds);
  }

  lemma {:induction false} OnceCloudsAll(cs: seq<Cloud>)
    requires forall k :: 0 <= k < |cs| ==> cs[k].repeat == Once
    ensures OnceClouds(cs) == cs
  {
    if cs != [] {
      OnceCloudsAll(cs[1..]);
    }
  }

  lemma {:induction false} OnceCloudsNone(cs: seq<Cloud>)
    requires forall k :: 0 <= k < |cs| ==> cs[k].repeat == Forever
    ensures OnceClouds(cs) == []
  {
    if cs != [] {
      OnceCloudsNone(cs[1..]);
    }
  }

  lemma {:induction false} OnceCloudsPrefix(x: seq<Cloud>, y: seq<Cloud>)
    requires forall k :: 0 <= k < |y| ==> y[k].repeat == Forever
    ensures OnceClouds(x + y) == OnceClouds(x)
  {
    if x == [] {
      assert x + y == y;
      OnceCloudsNone(y);
    } else {
      assert (x + y)[1..] == x[1..] + y;
      OnceCloudsPrefix(x[1..], y);
    }
  }
}
