/** The shade map of main.py: every column records the highest sprite standing over
    it, or -1 when the column is in the sun. */
module Shading {
  import opened Builtins
  import opened Flowers

  /** What the shade pass needs of a sprite: its position and its width. */
  datatype Sprite = Sprite(x: real, y: real, width: real)

  /** The value a sunlit column holds. */
  const Sunlit: real := -1.0

  /** A flower's sprite. */
  function FlowerSprite(f: Flower): Sprite
  {
    Sprite(f.x, f.y, f.species.width)
  }

  /** The sprites of a list of flowers, in order. */
  function FlowerSprites(fs: seq<Flower>): seq<Sprite>
  {
    seq(|fs|, k requires 0 <= k < |fs| => FlowerSprite(fs[k]))
  }

  /** The sprites visited are exactly the members of `flowers.union({butterfly})`:
      the butterfly's sprite and the sprite of every flower. */
  lemma SpritesAreUnionMembers(fs: seq<Flower>, b: Sprite)
    ensures forall s :: s in FlowerSprites(fs) + [b] <==>
              s == b || exists f :: f in fs && s == FlowerSprite(f)
  {
    forall s | s in FlowerSprites(fs) + [b]
      ensures s == b || exists f :: f in fs && s == FlowerSprite(f)
    {
      if s != b {
        var k :| 0 <= k < |fs| && FlowerSprites(fs)[k] == s;
        assert fs[k] in fs;
      }
    }
    forall f | f in fs
      ensures FlowerSprite(f) in FlowerSprites(fs) + [b]
    {
      var k :| 0 <= k < |fs| && fs[k] == f;
      assert (FlowerSprites(fs) + [b])[k] == FlowerSprite(f);
    }
  }

  /** Column `i` lies in `range(int(x), int(x + width))`. */
  predicate Covers(s: Sprite, i: int)
  {
    Trunc(s.x) <= i < Trunc(s.x + s.width)
  }

  /** The shade of column `i` after `max(sprite.y, shaded[i])` has been applied for
      every sprite of `sprites` in turn, starting from -1. */
  function Shade(sprites: seq<Sprite>, i: int): (r: real)
    ensures Sunlit <= r
  {
    if sprites == [] then Sunlit
    else
      var last := sprites[|sprites| - 1];
      var rest := Shade(sprites[..|sprites| - 1], i);
      if Covers(last, i) then Max(last.y, rest) else rest
  }

  /** The shade of a column is the maximum of -1 and the heights of the sprites
      covering it: it is at least each of them, and it is -1 or one of them. */
  lemma {:induction false} ShadeIsMaximum(sprites: seq<Sprite>, i: int)
    ensures forall k :: 0 <= k < |sprites| && Covers(sprites[k], i) ==> sprites[k].y <= Shade(sprites, i)
    ensures Shade(sprites, i) == Sunlit ||
            exists k :: 0 <= k < |sprites| && Covers(sprites[k], i) && sprites[k].y == Shade(sprites, i)
  {
    if sprites != [] {
      var n := |sprites| - 1;
      var front := sprites[..n];
      ShadeIsMaximum(front, i);
      assert forall k :: 0 <= k < n ==> sprites[k] == front[k];
      if Covers(sprites[n], i) && Shade(sprites, i) == sprites[n].y {
      } else if Shade(sprites, i) != Sunlit {
        var k :| 0 <= k < n && Covers(front[k], i) && front[k].y == Shade(front, i);
        assert sprites[k] == front[k];
      }
    }
  }

  /** A column that no sprite covers is sunlit. */
  lemma UncoveredIsSunlit(sprites: seq<Sprite>, i: int)
    requires forall k :: 0 <= k < |sprites| ==> !Covers(sprites[k], i)
    ensures Shade(sprites, i) == Sunlit
  {
    ShadeIsMaximum(sprites, i);
  }

  /** When no sprite stands below the ground line, a column is sunlit exactly when
      no sprite covers it. */
  lemma SunlitIffUncovered(sprites: seq<Sprite>, i: int)
    requires forall k :: 0 <= k < |sprites| ==> 0.0 <= sprites[k].y
    ensures Shade(sprites, i) == Sunlit <==> forall k :: 0 <= k < |sprites| ==> !Covers(sprites[k], i)
  {
    ShadeIsMaximum(sprites, i);
  }

  /** The shade does not depend on the order in which the sprites are visited, nor
      on repetitions: the source walks an unordered set. */
  lemma ShadeDependsOnlyOnMembers(s1: seq<Sprite>, s2: seq<Sprite>, i: int)
    requires forall s :: s in s1 <==> s in s2
    ensures Shade(s1, i) == Shade(s2, i)
  {
    ShadeAtMost(s1, s2, i);
    ShadeAtMost(s2, s1, i);
  }

  lemma ShadeAtMost(s1: seq<Sprite>, s2: seq<Sprite>, i: int)
    requires forall s :: s in s1 ==> s in s2
    ensures Shade(s1, i) <= Shade(s2, i)
  {
    ShadeIsMaximum(s1, i);
    ShadeIsMaximum(s2, i);
    if Shade(s1, i) != Sunlit {
      var k :| 0 <= k < |s1| && Covers(s1[k], i) && s1[k].y == Shade(s1, i);
      assert s1[k] in s2;
      var k2 :| 0 <= k2 < |s2| && s2[k2] == s1[k];
    }
  }
}
