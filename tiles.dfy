/**
 * Tile identities of the Niya rules engine: the four front features, the
 * four back features, the sixteen (front, back) tiles they make, and the
 * "shares a feature" relation that the board's feature pairs realise.
 */
module Tiles {

  datatype Front = Sun | Animal | Poem | Cloud
  datatype Back = Flower | Blossom | Pine | Leaf

  /** A key of the board's feature map: one of the eight feature names. */
  datatype Feature = FrontFeature(front: Front) | BackFeature(back: Back)

  /** Node.FRONT_FEATURES and Node.BACK_FEATURES, in their listed order. */
  const FRONT_FEATURES: seq<Front> := [Sun, Animal, Poem, Cloud]
  const BACK_FEATURES: seq<Back> := [Flower, Blossom, Pine, Leaf]

  /** The immutable identity of a tile: its front and back feature. */
  datatype Tile = Tile(front: Front, back: Back)

  /** A grid coordinate (row, col). */
  type Address = (int, int)

  predicate HasFeature(t: Tile, feature: Feature) {
    match feature
    case FrontFeature(f) => t.front == f
    case BackFeature(b) => t.back == b
  }

  /** Two tiles are feature-pair candidates when they share a front or a back feature. */
  predicate Shares(t: Tile, u: Tile) {
    t.front == u.front || t.back == u.back
  }

  function FrontIndex(f: Front): (i: int)
    ensures 0 <= i < 4 && FRONT_FEATURES[i] == f
  {
    match f
    case Sun => 0
    case Animal => 1
    case Poem => 2
    case Cloud => 3
  }

  function BackIndex(b: Back): (i: int)
    ensures 0 <= i < 4 && BACK_FEATURES[i] == b
  {
    match b
    case Flower => 0
    case Blossom => 1
    case Pine => 2
    case Leaf => 3
  }

  /** The k-th tile made by the nested loop over FRONT_FEATURES x BACK_FEATURES. */
  function TileAt(k: int): Tile
    requires 0 <= k < 16
  {
    Tile(FRONT_FEATURES[k / 4], BACK_FEATURES[k % 4])
  }

  /** The position of a tile in creation order: the inverse of TileAt. */
  function Index(t: Tile): (k: int)
    ensures 0 <= k < 16 && TileAt(k) == t
  {
    4 * FrontIndex(t.front) + BackIndex(t.back)
  }

  /** TileAt is one-to-one: no two iterations of the nested loop make the same tile. */
  lemma IndexOfTileAt(k: int)
    requires 0 <= k < 16
    ensures Index(TileAt(k)) == k
  {
    var f, b := k / 4, k % 4;
    assert FrontIndex(FRONT_FEATURES[f]) == f;
    assert BackIndex(BACK_FEATURES[b]) == b;
  }

  /** The sixteen tiles; every tile value is one of them. */
  function AllTiles(): (s: set<Tile>)
    ensures forall t :: t in s
  {
    var s := set f, b | f in FRONT_FEATURES && b in BACK_FEATURES :: Tile(f, b);
    assert forall t :: t in s by {
      forall t ensures t in s {
        assert FRONT_FEATURES[FrontIndex(t.front)] == t.front;
        assert BACK_FEATURES[BackIndex(t.back)] == t.back;
      }
    }
    s
  }

  /** There are exactly sixteen tiles, one per (front, back) pair. */
  lemma AllTilesCount()
    ensures |AllTiles()| == 16
  {
    var sun, animal, poem, cloud := Row(Sun), Row(Animal), Row(Poem), Row(Cloud);
    assert AllTiles() == sun + animal + poem + cloud by {
      forall t: Tile ensures t in sun + animal + poem + cloud {
        assert t in Row(t.front);
      }
    }
    assert sun * animal == {};
    assert |sun + animal| == 8;
    assert (sun + animal) * poem == {};
    assert |sun + animal + poem| == 12;
    assert (sun + animal + poem) * cloud == {};
  }

  /** The four tiles with front feature f. */
  function Row(f: Front): (r: set<Tile>)
    ensures |r| == 4
    ensures forall t: Tile :: t in r <==> t.front == f
  {
    var r := {Tile(f, Flower), Tile(f, Blossom), Tile(f, Pine), Tile(f, Leaf)};
    assert forall t: Tile | t.front == f :: t in r by {
      forall t: Tile | t.front == f ensures t in r {
        assert t.back.Flower? || t.back.Blossom? || t.back.Pine? || t.back.Leaf?;
      }
    }
    r
  }

  /** The four tiles with back feature b. */
  function Column(b: Back): (r: set<Tile>)
    ensures |r| == 4
    ensures forall t: Tile :: t in r <==> t.back == b
  {
    var r := {Tile(Sun, b), Tile(Animal, b), Tile(Poem, b), Tile(Cloud, b)};
    assert forall t: Tile | t.back == b :: t in r by {
      forall t: Tile | t.back == b ensures t in r {
        assert t.front.Sun? || t.front.Animal? || t.front.Poem? || t.front.Cloud?;
      }
    }
    r
  }

  /** The four tiles bearing a feature. */
  function Bearers(feature: Feature): (r: set<Tile>)
    ensures |r| == 4
    ensures forall t :: t in r <==> HasFeature(t, feature)
  {
    match feature
    case FrontFeature(f) => Row(f)
    case BackFeature(b) => Column(b)
  }

  /** The tiles other than t that share a feature with it. */
  function Neighbours(t: Tile): set<Tile> {
    set u | u in AllTiles() && u != t && Shares(t, u)
  }

  /** Every tile shares a feature with exactly six others: three per feature. */
  lemma NeighbourCount(t: Tile)
    ensures |Neighbours(t)| == 6
  {
    var sameFront := set u | u in AllTiles() && u != t && u.front == t.front;
    var sameBack := set u | u in AllTiles() && u != t && u.back == t.back;
    SameFrontCount(t);
    SameBackCount(t);
    assert Neighbours(t) == sameFront + sameBack;
    assert sameFront * sameBack == {};
  }

  lemma SameFrontCount(t: Tile)
    ensures |set u | u in AllTiles() && u != t && u.front == t.front| == 3
  {
    var f := t.front;
    var s := set u | u in AllTiles() && u != t && u.front == f;
    match t.back
    case Flower => assert s == {Tile(f, Blossom), Tile(f, Pine), Tile(f, Leaf)};
    case Blossom => assert s == {Tile(f, Flower), Tile(f, Pine), Tile(f, Leaf)};
    case Pine => assert s == {Tile(f, Flower), Tile(f, Blossom), Tile(f, Leaf)};
    case Leaf => assert s == {Tile(f, Flower), Tile(f, Blossom), Tile(f, Pine)};
  }

  lemma SameBackCount(t: Tile)
    ensures |set u | u in AllTiles() && u != t && u.back == t.back| == 3
  {
    var b := t.back;
    var s := set u | u in AllTiles() && u != t && u.back == b;
    match t.front
    case Sun => assert s == {Tile(Animal, b), Tile(Poem, b), Tile(Cloud, b)};
    case Animal => assert s == {Tile(Sun, b), Tile(Poem, b), Tile(Cloud, b)};
    case Poem => assert s == {Tile(Sun, b), Tile(Animal, b), Tile(Cloud, b)};
    case Cloud => assert s == {Tile(Sun, b), Tile(Animal, b), Tile(Poem, b)};
  }
}
