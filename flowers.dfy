/** The species table of flowers.py: per-species seeding and survival thresholds,
    and the constructor of a new flower. */
module Flowers {

  /** A flower class. `width` is the sprite's width on screen (image width times
      the class's scale), an opaque positive input of the model. */
  datatype Species = Species(
    seedMinTemp: real,
    seedMaxTemp: real,
    minTemp: real,
    maxTemp: real,
    width: real)

  /** A live flower: its class and its sprite position. */
  datatype Flower = Flower(species: Species, x: real, y: real)

  /** `RedFlower`: seeds strictly between 0.4 and 0.5 and survives a mean
      temperature in [0.2, 0.8]. */
  function RedFlower(spriteWidth: real): Species
  {
    Species(0.4, 0.5, 0.2, 0.8, spriteWidth)
  }

  /** `flower_classes`, the table the seeding pass iterates. */
  function FlowerClasses(redWidth: real): seq<Species>
  {
    [RedFlower(redWidth)]
  }

  /** `Flower.__init__`: the flower stands at the given `x`, on the ground. */
  function NewFlower(species: Species, x: real): (f: Flower)
    ensures f.x == x && f.y == 0.0 && f.species == species
  {
    Flower(species, x, 0.0)
  }

  /** The seeding band lies strictly inside the survival band, and both bands are
      non-empty: a cell warm enough to seed a red flower is one it can survive on. */
  lemma RedFlowerBands(spriteWidth: real, t: real)
    ensures RedFlower(spriteWidth).seedMinTemp < RedFlower(spriteWidth).seedMaxTemp
    ensures RedFlower(spriteWidth).minTemp < RedFlower(spriteWidth).maxTemp
    ensures RedFlower(spriteWidth).seedMinTemp < t < RedFlower(spriteWidth).seedMaxTemp ==>
              RedFlower(spriteWidth).minTemp < t < RedFlower(spriteWidth).maxTemp
  {
  }

  /** Every class in `flower_classes` has nested bands. */
  lemma FlowerClassesBands(redWidth: real)
    ensures forall s :: s in FlowerClasses(redWidth) ==>
              s.minTemp < s.seedMinTemp < s.seedMaxTemp < s.maxTemp && s.width == redWidth
  {
  }
}
