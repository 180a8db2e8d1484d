/** The simulation state of main.py and its slow tick, `state_update`: the shade
    map, then the temperatures, then the death pass, then the seeding pass. */
module Simulation {
  import opened Builtins
  import opened Flowers
  import opened Shading
  import opened Temperature
  import opened Lifecycle
  import opened Motion

  class World {
    /** Per column: the height of the tallest sprite over it, or -1 when sunlit. */
    const shaded: array<real>
    /** Per column: its temperature. */
    const temps: array<real>
    /** The live flowers; a flower is identified by its position in the list. */
    var flowers: seq<Flower>
    const butterfly: Butterfly
    /** `flower_classes` */
    const flowerClasses: seq<Species>

    ghost predicate Valid()
      reads this
    {
      shaded != temps && shaded.Length == temps.Length &&
      SizedTable(flowerClasses) && Sized(flowers)
    }

    /** The sprites the shade pass visits: the flowers, then the butterfly. */
    function AllSprites(): seq<Sprite>
      reads this, butterfly
    {
      FlowerSprites(flowers) + [Sprite(butterfly.x, butterfly.y, butterfly.width)]
    }

    /** The module-level set-up: both arrays `width` long and all 0.0, one red flower
        at x = 50 and the butterfly at rest. */
    constructor (width: nat, butterflyWidth: real, redWidth: real)
      requires 0.0 < redWidth
      ensures Valid() && fresh(shaded) && fresh(temps) && fresh(butterfly)
      ensures shaded.Length == width && temps.Length == width
      ensures forall i :: 0 <= i < width ==> shaded[i] == 0.0 && temps[i] == 0.0
      ensures flowers == [NewFlower(RedFlower(redWidth), 50.0)]
      ensures flowerClasses == FlowerClasses(redWidth)
      ensures butterfly.x == 0.0 && butterfly.y == 40.0 && butterfly.dx == 0.0 && butterfly.dy == 0.0
      ensures butterfly.btnSpeed == 80.0 && butterfly.width == butterflyWidth
    {
      shaded := new real[width](_ => 0.0);
      temps := new real[width](_ => 0.0);
      flowers := [NewFlower(RedFlower(redWidth), 50.0)];
      flowerClasses := FlowerClasses(redWidth);
      butterfly := new Butterfly(butterflyWidth);
    }
  
    /** The shade pass: reset every column to -1, then stamp each column with the
        highest sprite covering it. Only columns of the array are written. */
    method ShadePass()
      requires Valid()
      modifies shaded
      ensures forall i :: 0 <= i < shaded.Length ==> shaded[i] == Shade(AllSprites(), i)
    {
      var sprites := AllSprites();
      var n := shaded.Length;
      for i := 0 to n
        invariant forall c :: 0 <= c < i ==> shaded[c] == Sunlit
      {
        shaded[i] := Sunlit;
      }
      for k := 0 to |sprites|
        invariant forall c :: 0 <= c < n ==> shaded[c] == Shade(sprites[..k], c)
      {
        var s := sprites[k];
        assert sprites[..k + 1][..k] == sprites[..k] && sprites[..k + 1][k] == s;
        var lo, hi := Trunc(s.x), Trunc(s.x + s.width);
        var c := lo;
        while c < hi
          invariant lo <= c && (lo <= hi ==> c <= hi)
          invariant forall d :: 0 <= d < n ==>
                      shaded[d] == if lo <= d < c then Shade(sprites[..k + 1], d) else Shade(sprites[..k], d)
        {
          if 0 <= c < n {
            shaded[c] := Max(s.y, shaded[c]);
          }
          c := c + 1;
        }
      }
      assert sprites[..|sprites|] == sprites;
    }

    /** The temperature pass: each column moves by its own old temperature and its
        own shade entry alone. */
    method TemperaturePass(dt: real)
      requires Valid()
      modifies temps
      ensures forall i :: 0 <= i < temps.Length ==> temps[i] == NewTemp(old(temps[i]), shaded[i], dt)
    {
      for i := 0 to temps.Length
        invariant forall c :: 0 <= c < i ==> temps[c] == NewTemp(old(temps[c]), shaded[c], dt)
        invariant forall c :: i <= c < temps.Length ==> temps[c] == old(temps[c])
      {
        var temp := temps[i];
        if shaded[i] == Sunlit {
          temps[i] := Min(1.0, temp + SunRate * dt);
        } else {
          temps[i] := Max(0.0, temp - ShadeRate * dt);
        }
      }
    }

    /** The in-range temperature sum over `range(lo, hi)`. */
    method SpanTotal(lo: int, hi: int) returns (total: real)
      ensures total == SpanSum(temps[..], lo, hi)
    {
      total := 0.0;
      var c := lo;
      while c < hi
        invariant c == lo || lo < c <= hi
        invariant total == SpanSum(temps[..], lo, c)
      {
        if 0 <= c < temps.Length {
          total := total + temps[c];
        }
        c := c + 1;
      }
    }

    /** The positions of the flowers whose mean temperature has left their band. */
    method CollectDead() returns (dead: set<int>)
      requires Valid()
      ensures forall j :: j in dead <==> 0 <= j < |flowers| && Dies(flowers[j], temps[..])
    {
      dead := {};
      for k := 0 to |flowers|
        invariant forall j :: j in dead <==> 0 <= j < k && Dies(flowers[j], temps[..])
      {
        var f := flowers[k];
        var total := SpanTotal(Trunc(f.x), Trunc(f.x + f.species.width));
        var avg := total / f.species.width;
        if avg > f.species.maxTemp || avg < f.species.minTemp {
          dead := dead + {k};
        }
      }
    }

    /** The death pass: decide every flower's fate first, then remove the dead all
        at once. */
    method DeathPass()
      requires Valid()
      modifies this
      ensures Valid()
      ensures flowers == Survivors(old(flowers), temps[..])
    {
      var dead := CollectDead();
      RemoveDeadIsSurvivors(flowers, dead, temps[..]);
      SurvivorsShrink(flowers, temps[..]);
      flowers := RemoveIndices(flowers, dead);
    }

    /** The seeding pass: for every cell and every class, a cell inside the class's
        seeding band takes one draw, and a draw above 0.99 adds a new flower there. */
    method SeedPass(draws: nat -> real) returns (used: nat)
      requires Valid()
      modifies this
      ensures Valid()
      ensures flowers == old(flowers) + Seeds(temps[..], flowerClasses, draws).0
      ensures used == Seeds(temps[..], flowerClasses, draws).1
    {
      var table := flowerClasses;
      ghost var ts := temps[..];
      ghost var added: seq<Flower> := [];
      used := 0;
      for i := 0 to temps.Length
        invariant flowers == old(flowers) + added
        invariant SeedScan(ts, table, draws, i, 0, used, added) == Seeds(ts, table, draws)
      {
        var temp := temps[i];
        for j := 0 to |table|
          invariant flowers == old(flowers) + added
          invariant SeedScan(ts, table, draws, i, j, used, added) == Seeds(ts, table, draws)
        {
          var species := table[j];
          if temp < species.seedMaxTemp && temp > species.seedMinTemp {
            if draws(used) > SeedChance {
              var f := NewFlower(species, i as real);
              flowers := flowers + [f];
              added := added + [f];
            }
            used := used + 1;
          }
        }
      }
      SeedsSummary(ts, table, draws);
    }

    /** `state_update`: the four passes in their fixed order. Death is decided on the
        temperatures of this tick, and flowers seeded this tick are not judged until
        the next one. The butterfly is never touched. */
    method StateUpdate(dt: real, draws: nat -> real) returns (used: nat)
      requires Valid()
      modifies this, shaded, temps
      ensures Valid()
      ensures forall i :: 0 <= i < shaded.Length ==> shaded[i] == Shade(old(AllSprites()), i)
      ensures forall i :: 0 <= i < temps.Length ==>
                temps[i] == NewTemp(old(temps[i]), Shade(old(AllSprites()), i), dt)
      ensures flowers == Survivors(old(flowers), temps[..]) + Seeds(temps[..], flowerClasses, draws).0
      ensures used == Seeds(temps[..], flowerClasses, draws).1
      ensures unchanged(butterfly)
      ensures 0.0 <= dt && (forall i :: 0 <= i < temps.Length ==> 0.0 <= old(temps[i]) <= 1.0) ==>
                forall i :: 0 <= i < temps.Length ==> 0.0 <= temps[i] <= 1.0
    {
      ShadePass();
      TemperaturePass(dt);
      DeathPass();
      used := SeedPass(draws);
    }
  }
}
