/** The name and the 3-argument unique id shared by entries and entities. */
module Helpers {
  import opened Text
  import opened Sorting
  import opened Const
  import ConfigFlow

  /** The `" (Lines: ...)"` part of a name: the lines sorted, or nothing. */
  function LinesSuffix(filterLines: seq<string>): (r: string)
    ensures |filterLines| == 0 <==> r == ""
    ensures |filterLines| > 0 ==> " (Lines: " <= r
  {
    if |filterLines| == 0 then "" else " (Lines: " + Join(", ", SortLines(filterLines)) + ")"
  }

  /** The direction part of a name: nothing for all directions. */
  function DirectionSuffix(direction: Direction): (r: string)
    ensures direction == All <==> r == ""
  {
    if direction == All then ""
    else " " + (if direction == Here then "direction here" else "direction there")
  }

  /** The readable name of an entry. */
  function EntityName(stopId: string, filterLines: seq<string>, direction: Direction): (r: string)
    ensures |r| >= |"Bus Stop "| + |stopId|
    ensures direction != All ==> |r| > |"Bus Stop "| + |stopId| + |LinesSuffix(filterLines)|
  {
    "Bus Stop " + stopId + LinesSuffix(filterLines) + DirectionSuffix(direction)
  }

  /** `generate_name`: starts from the stop, adds the lines, then the direction. */
  method GenerateName(stopId: string, filterLines: seq<string>, direction: Direction) returns (name: string)
    ensures name == EntityName(stopId, filterLines, direction)
  {
    name := "Bus Stop " + stopId;
    if |filterLines| > 0 {
      name := name + (" (Lines: " + Join(", ", SortLines(filterLines)) + ")");
    }
    ghost var withLines := name;
    assert withLines == "Bus Stop " + stopId + LinesSuffix(filterLines);
    if direction != All {
      var directionLabel := if direction == Here then "direction here" else "direction there";
      name := name + (" " + directionLabel);
    }
    assert name == withLines + DirectionSuffix(direction);
  }

  /** The name starts with the stop. */
  lemma NameStartsWithStop(stopId: string, filterLines: seq<string>, direction: Direction)
    ensures "Bus Stop " + stopId <= EntityName(stopId, filterLines, direction)
  {
    PrefixOfConcat("Bus Stop " + stopId, LinesSuffix(filterLines), DirectionSuffix(direction));
  }

  /** Without lines and for all directions the name is the stop's alone;
      the lines part is there exactly when lines are given, the direction
      part exactly when the direction is not all. */
  lemma NameSuffixes(stopId: string, filterLines: seq<string>, direction: Direction)
    ensures |filterLines| == 0 && direction == All ==> EntityName(stopId, filterLines, direction) == "Bus Stop " + stopId
    ensures |filterLines| == 0 <==> LinesSuffix(filterLines) == ""
    ensures direction == All <==> DirectionSuffix(direction) == ""
  {
    if |filterLines| > 0 {
      assert |LinesSuffix(filterLines)| > 0;
    }
  }

  /** The direction part reads " direction here" for here and
      " direction there" for any other direction but all. */
  lemma DirectionSuffixValues(direction: Direction)
    ensures direction == Here ==> DirectionSuffix(direction) == " direction here"
    ensures direction == There ==> DirectionSuffix(direction) == " direction there"
  {
  }

  /** For all directions the name is the configuration step's entry title
      over the sorted lines. */
  lemma NameIsTitleOfSortedLines(stopId: string, filterLines: seq<string>)
    ensures EntityName(stopId, filterLines, All) == ConfigFlow.EntryTitle(stopId, SortLines(filterLines))
  {
    var sorted := SortLines(filterLines);
    assert |sorted| == |multiset(sorted)| == |multiset(filterLines)| == |filterLines|;
  }

  /** The name does not depend on the order in which the lines were given. */
  lemma NamePermutationInvariant(stopId: string, a: seq<string>, b: seq<string>, direction: Direction)
    requires multiset(a) == multiset(b)
    ensures EntityName(stopId, a, direction) == EntityName(stopId, b, direction)
  {
    assert |a| == |multiset(a)| == |multiset(b)| == |b|;
    SortPermutationInvariant(a, b);
  }

  /** The unique id of an entry: the stop id, then the sorted lines joined
      with `-` if there are any, then the direction unless it is all, each part
      after the first preceded by `_`. */
  function UniqueId(stopId: string, filterLines: seq<string>, direction: Direction): (r: string)
    ensures stopId <= r
    ensures |filterLines| == 0 && direction == All ==> r == stopId
  {
    stopId
      + (if |filterLines| > 0 then "_" + Join("-", SortLines(filterLines)) else "")
      + (if direction != All then "_" + DirectionValue(direction) else "")
  }

  /** The parts `generate_unique_id` collects before joining them. */
  function UniqueIdParts(stopId: string, filterLines: seq<string>, direction: Direction): (r: seq<string>)
    ensures |r| == 1 + (if |filterLines| > 0 then 1 else 0) + (if direction != All then 1 else 0)
    ensures r[0] == stopId
    ensures |filterLines| > 0 ==> r[1] == Join("-", SortLines(filterLines))
    ensures direction != All ==> r[|r| - 1] == DirectionValue(direction)
  {
    [stopId]
      + (if |filterLines| > 0 then [Join("-", SortLines(filterLines))] else [])
      + (if direction != All then [DirectionValue(direction)] else [])
  }

  /** `generate_unique_id`: collect the parts, then join them with `_`. */
  method GenerateUniqueId(stopId: string, filterLines: seq<string>, direction: Direction) returns (id: string)
    ensures id == Join("_", UniqueIdParts(stopId, filterLines, direction))
    ensures id == UniqueId(stopId, filterLines, direction)
  {
    var parts := [stopId];
    if |filterLines| > 0 {
      parts := parts + [Join("-", SortLines(filterLines))];
    }
    if direction != All {
      parts := parts + [DirectionValue(direction)];
    }
    assert parts == UniqueIdParts(stopId, filterLines, direction);
    id := Join("_", parts);
    UniqueIdJoinsParts(stopId, filterLines, direction);
  }

  /** The id does not depend on the order in which the lines were given. */
  lemma UniqueIdPermutationInvariant(stopId: string, a: seq<string>, b: seq<string>, direction: Direction)
    requires multiset(a) == multiset(b)
    ensures UniqueId(stopId, a, direction) == UniqueId(stopId, b, direction)
  {
    assert |a| == |multiset(a)| == |multiset(b)| == |b|;
    SortPermutationInvariant(a, b);
  }

  /** For all directions the 3-argument id is the configuration step's 2-argument id. */
  lemma UniqueIdAgreesWithConfigFlow(stopId: string, filterLines: seq<string>)
    ensures UniqueId(stopId, filterLines, All) == ConfigFlow.GenerateUniqueId(stopId, filterLines)
  {
  }

  /** Joining the collected parts with `_` is the unique id. */
  lemma UniqueIdJoinsParts(stopId: string, filterLines: seq<string>, direction: Direction)
    ensures Join("_", UniqueIdParts(stopId, filterLines, direction)) == UniqueId(stopId, filterLines, direction)
  {
    var lines := Join("-", SortLines(filterLines));
    var dir := DirectionValue(direction);
    JoinSmall("_", stopId, lines, dir);
    JoinSmall("_", stopId, dir, dir);
  }

  /** The sorted lines joined with `-` contain no `_` when no line does. */
  lemma SortedLinesAvoid(filterLines: seq<string>, c: char)
    requires c != '-'
    requires forall i | 0 <= i < |filterLines| :: Avoids(filterLines[i], {c})
    ensures Avoids(Join("-", SortLines(filterLines)), {c})
  {
    JoinPermutationAvoids("-", filterLines, SortLines(filterLines), {c});
  }

  /** When no part contains `_`, splitting the id at `_` gives the parts back:
      the direction is a part of its own exactly when it is not all. */
  lemma UniqueIdSplits(stopId: string, filterLines: seq<string>, direction: Direction)
    requires Avoids(stopId, {'_'})
    requires forall i | 0 <= i < |filterLines| :: Avoids(filterLines[i], {'_'})
    ensures SplitOn(UniqueId(stopId, filterLines, direction), {'_'}) == UniqueIdParts(stopId, filterLines, direction)
  {
    var parts := UniqueIdParts(stopId, filterLines, direction);
    if |filterLines| > 0 { SortedLinesAvoid(filterLines, '_'); }
    assert forall i | 0 <= i < |parts| :: Avoids(parts[i], {'_'});
    UniqueIdJoinsParts(stopId, filterLines, direction);
    SplitJoin('_', parts);
  }
}
