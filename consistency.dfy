/**
 * The consistency levels the Python API exposes, and the table that turns
 * each into the driver's own consistency value (`From<Consistency> for
 * scylla::frame::types::Consistency`).
 */
module Consistency {
  import opened Wrappers

  /** The levels a query can be run at (src/consistency.rs:11-21). */
  datatype Level =
    | ANY
    | ONE
    | TWO
    | THREE
    | QUORUM
    | ALL
    | LOCAL_QUORUM
    | EACH_QUORUM
    | LOCAL_ONE

  /** The driver's consistency enum, which also has the two serial levels. */
  datatype DriverConsistency =
    | Any
    | One
    | Two
    | Three
    | Quorum
    | All
    | LocalQuorum
    | EachQuorum
    | Serial
    | LocalSerial
    | LocalOne

  const Levels: seq<Level> := [ANY, ONE, TWO, THREE, QUORUM, ALL, LOCAL_QUORUM, EACH_QUORUM, LOCAL_ONE]

  /** The conversion (src/consistency.rs:26-37). */
  function ToDriver(c: Level): DriverConsistency
  {
    match c
    case ANY => Any
    case ONE => One
    case TWO => Two
    case THREE => Three
    case QUORUM => Quorum
    case ALL => All
    case LOCAL_QUORUM => LocalQuorum
    case EACH_QUORUM => EachQuorum
    case LOCAL_ONE => LocalOne
  }

  /** The reverse lookup: the level a driver value comes from, if any. */
  function FromDriver(d: DriverConsistency): (r: Option<Level>)
  {
    match d
    case Any => Some(ANY)
    case One => Some(ONE)
    case Two => Some(TWO)
    case Three => Some(THREE)
    case Quorum => Some(QUORUM)
    case All => Some(ALL)
    case LocalQuorum => Some(LOCAL_QUORUM)
    case EachQuorum => Some(EACH_QUORUM)
    case Serial => None
    case LocalSerial => None
    case LocalOne => Some(LOCAL_ONE)
  }

  /** The Python-side name of a level. */
  function Name(c: Level): string
  {
    match c
    case ANY => "ANY"
    case ONE => "ONE"
    case TWO => "TWO"
    case THREE => "THREE"
    case QUORUM => "QUORUM"
    case ALL => "ALL"
    case LOCAL_QUORUM => "LOCAL_QUORUM"
    case EACH_QUORUM => "EACH_QUORUM"
    case LOCAL_ONE => "LOCAL_ONE"
  }

  /** The driver-side name of a consistency value. */
  function DriverName(d: DriverConsistency): string
  {
    match d
    case Any => "Any"
    case One => "One"
    case Two => "Two"
    case Three => "Three"
    case Quorum => "Quorum"
    case All => "All"
    case LocalQuorum => "LocalQuorum"
    case EachQuorum => "EachQuorum"
    case Serial => "Serial"
    case LocalSerial => "LocalSerial"
    case LocalOne => "LocalOne"
  }

  /** The words of a level's name, upper case. */
  function Words(c: Level): seq<string>
  {
    match c
    case ANY => ["ANY"]
    case ONE => ["ONE"]
    case TWO => ["TWO"]
    case THREE => ["THREE"]
    case QUORUM => ["QUORUM"]
    case ALL => ["ALL"]
    case LOCAL_QUORUM => ["LOCAL", "QUORUM"]
    case EACH_QUORUM => ["EACH", "QUORUM"]
    case LOCAL_ONE => ["LOCAL", "ONE"]
  }

  function Lower(c: char): char
  {
    if 'A' <= c <= 'Z' then (c as int - 'A' as int + 'a' as int) as char else c
  }

  /** A word with its first letter kept and the rest lower-cased. */
  function Capitalized(w: string): string
  {
    seq(|w|, i requires 0 <= i < |w| => if i == 0 then w[i] else Lower(w[i]))
  }

  /** Upper snake case: the words joined by `_`. */
  function SnakeCase(ws: seq<string>): string
  {
    if ws == [] then [] else if |ws| == 1 then ws[0] else ws[0] + "_" + SnakeCase(ws[1..])
  }

  /** Camel case: the words capitalized and run together. */
  function CamelCase(ws: seq<string>): string
  {
    if ws == [] then [] else Capitalized(ws[0]) + CamelCase(ws[1..])
  }

  /** Every level is listed exactly once. */
  lemma LevelsComplete(c: Level)
    ensures c in Levels
    ensures forall i, j :: 0 <= i < j < |Levels| ==> Levels[i] != Levels[j]
  {
  }

  /** The table is total and injective: distinct levels have distinct images. */
  lemma ToDriverInjective(c: Level, c': Level)
    ensures ToDriver(c) == ToDriver(c') ==> c == c'
  {
  }

  /** The nine images are pairwise different, and neither serial level is one of them. */
  lemma NineImages()
    ensures forall i, j :: 0 <= i < j < |Levels| ==> ToDriver(Levels[i]) != ToDriver(Levels[j])
    ensures forall c: Level :: ToDriver(c) != Serial && ToDriver(c) != LocalSerial
  {
  }

  /** `FromDriver` undoes `ToDriver`, and answers only with levels that map back. */
  lemma FromDriverInverts(c: Level, d: DriverConsistency)
    ensures FromDriver(ToDriver(c)) == Some(c)
    ensures FromDriver(d).Some? ==> ToDriver(FromDriver(d).value) == d
    ensures FromDriver(d).None? <==> d == Serial || d == LocalSerial
  {
  }

  lemma TwoWords(a: string, b: string)
    ensures SnakeCase([a, b]) == a + "_" + b
    ensures CamelCase([a, b]) == Capitalized(a) + Capitalized(b)
  {
    assert [a, b][1..] == [b];
    assert CamelCase([b]) == Capitalized(b) + CamelCase([]);
    assert Capitalized(b) + [] == Capitalized(b);
  }

  lemma LocalQuorumNames()
    ensures SnakeCase(Words(LOCAL_QUORUM)) == Name(LOCAL_QUORUM)
    ensures CamelCase(Words(LOCAL_QUORUM)) == DriverName(LocalQuorum)
  {
    TwoWords("LOCAL", "QUORUM");
  }

  lemma EachQuorumNames()
    ensures SnakeCase(Words(EACH_QUORUM)) == Name(EACH_QUORUM)
    ensures CamelCase(Words(EACH_QUORUM)) == DriverName(EachQuorum)
  {
    TwoWords("EACH", "QUORUM");
  }

  lemma LocalOneNames()
    ensures SnakeCase(Words(LOCAL_ONE)) == Name(LOCAL_ONE)
    ensures CamelCase(Words(LOCAL_ONE)) == DriverName(LocalOne)
  {
    TwoWords("LOCAL", "ONE");
  }

  /** A level's Python name is its words in upper snake case. */
  lemma SnakeName(c: Level)
    ensures Name(c) == SnakeCase(Words(c))
  {
    match c {
      case LOCAL_QUORUM => LocalQuorumNames();
      case EACH_QUORUM => EachQuorumNames();
      case LOCAL_ONE => LocalOneNames();
      case _ =>
    }
  }

  /**
   * Name for name: each level maps to the driver value named by the same
   * words in camel case (`ANY` to `Any`, `LOCAL_QUORUM` to `LocalQuorum`).
   */
  lemma NameForName(c: Level)
    ensures DriverName(ToDriver(c)) == CamelCase(Words(c))
  {
    match c {
      case LOCAL_QUORUM => LocalQuorumNames();
      case EACH_QUORUM => EachQuorumNames();
      case LOCAL_ONE => LocalOneNames();
      case _ =>
    }
  }
}
