/**
 * The subject colour cache of script.js (`subjectColors` and `getColor`).
 * A subject is bound to a colour the first time it is asked for, from the
 * position index the caller passes; every later request returns that colour.
 */
module Colors {

  /** An `hsl(h,s%,l%)` colour: hue in degrees, saturation and lightness in percent. */
  datatype Hsl = Hsl(hue: nat, saturation: nat, lightness: nat)

  const Saturation: nat := 70
  const Lightness: nat := 55

  /** `index * 60 % 360`: six hues, 60 degrees apart, repeating every six positions. */
  function Hue(index: nat): (h: nat)
    ensures h < 360 && h % 60 == 0
  {
    HueOfPosition(index);
    index * 60 % 360
  }

  /** The hue of a position is 60 degrees times the position modulo six. */
  lemma HueOfPosition(index: nat)
    ensures index * 60 % 360 == 60 * (index % 6)
  {
    var q, r := index / 6, index % 6;
    assert index * 60 == 360 * q + 60 * r;
  }

  /** The hue depends only on the position modulo six. */
  lemma HueCycle(i: nat, j: nat)
    ensures Hue(i) == 60 * (i % 6)
    ensures Hue(i) == Hue(j) <==> i % 6 == j % 6
  {
    HueOfPosition(i);
    HueOfPosition(j);
  }

  /** The colour a subject receives when first seen at position `index`. */
  function FreshColor(index: nat): (c: Hsl)
    ensures c.hue == Hue(index) && c.saturation == 70 && c.lightness == 55
  {
    Hsl(Hue(index), Saturation, Lightness)
  }

  /** The table after one `getColor(subject, index)` call. */
  function Bind(table: map<string, Hsl>, subject: string, index: nat): (t: map<string, Hsl>)
    ensures t.Keys == table.Keys + {subject}
    ensures forall s :: s in table ==> t[s] == table[s]
    ensures subject !in table ==> t[subject] == FreshColor(index)
  {
    if subject in table then table else table[subject := FreshColor(index)]
  }

  /** The table after a run of `getColor` calls, given as (subject, index) pairs in call order. */
  function Replay(table: map<string, Hsl>, calls: seq<(string, nat)>): (t: map<string, Hsl>)
    ensures table.Keys <= t.Keys
    decreases |calls|
  {
    if calls == [] then table
    else
      var last := calls[|calls| - 1];
      Bind(Replay(table, calls[..|calls| - 1]), last.0, last.1)
  }

  /** Appending one call to a run binds exactly as one more `getColor` does. */
  lemma ReplayStep(table: map<string, Hsl>, calls: seq<(string, nat)>, i: nat)
    requires i < |calls|
    ensures Replay(table, calls[..i + 1]) == Bind(Replay(table, calls[..i]), calls[i].0, calls[i].1)
  {
    assert calls[..i + 1][..i] == calls[..i];
  }

  /** The subjects named in a run of calls. */
  function CalledSubjects(calls: seq<(string, nat)>): set<string> {
    set k | 0 <= k < |calls| :: calls[k].0
  }

  /** A colour once bound is never changed or removed by later calls, whatever index they pass. */
  lemma {:induction false} ReplayKeepsBindings(table: map<string, Hsl>, calls: seq<(string, nat)>)
    ensures forall s :: s in table ==> s in Replay(table, calls) && Replay(table, calls)[s] == table[s]
    decreases |calls|
  {
    if calls != [] {
      ReplayKeepsBindings(table, calls[..|calls| - 1]);
    }
  }

  /** The table only grows, and exactly by the subjects asked for. */
  lemma {:induction false} ReplayKeys(table: map<string, Hsl>, calls: seq<(string, nat)>)
    ensures Replay(table, calls).Keys == table.Keys + CalledSubjects(calls)
    decreases |calls|
  {
    if calls != [] {
      var init := calls[..|calls| - 1];
      ReplayKeys(table, init);
      assert CalledSubjects(calls) == CalledSubjects(init) + {calls[|calls| - 1].0} by {
        forall x | x in CalledSubjects(calls)
          ensures x in CalledSubjects(init) + {calls[|calls| - 1].0}
        {
          var k :| 0 <= k < |calls| && calls[k].0 == x;
          if k < |init| {
            assert init[k].0 == x;
          }
        }
      }
    }
  }

  /**
   * The colour a subject ends up with is the one for the index of the FIRST
   * call that names it, provided it was not bound before the run.
   */
  lemma {:induction false} FirstIndexWins(table: map<string, Hsl>, calls: seq<(string, nat)>, k: nat)
    requires k < |calls| && calls[k].0 !in table
    requires forall j :: 0 <= j < k ==> calls[j].0 != calls[k].0
    ensures calls[k].0 in Replay(table, calls)
    ensures Replay(table, calls)[calls[k].0] == FreshColor(calls[k].1)
    decreases |calls|
  {
    var s := calls[k].0;
    if k == |calls| - 1 {
      ReplayKeys(table, calls[..k]);
      assert s !in Replay(table, calls[..k]);
    } else {
      var init := calls[..|calls| - 1];
      FirstIndexWins(table, init, k);
      assert init[k] == calls[k];
    }
  }

  /** The process-wide colour table (`subjectColors`). */
  class ColorTable {
    var colors: map<string, Hsl>

    constructor ()
      ensures colors == map[]
    {
      colors := map[];
    }

    /** `getColor(subject, index)`: bind on first sight, then always answer the bound colour. */
    method GetColor(subject: string, index: nat) returns (c: Hsl)
      modifies this
      ensures colors == Bind(old(colors), subject, index)
      ensures subject in old(colors) ==> c == old(colors)[subject]
      ensures subject !in old(colors) ==> c == FreshColor(index)
      ensures c == colors[subject]
    {
      if subject !in colors {
        colors := colors[subject := FreshColor(index)];
      }
      c := colors[subject];
    }
  }
}
