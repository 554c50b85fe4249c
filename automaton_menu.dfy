/**
 * The automaton menu: the catalogue of preset born/survive rules, and the
 * console validator for a custom rule. Console input is a sequence of lines.
 * A line is accepted when it is a string of distinct digits in [start, 8] no
 * longer than 9 - start; a rejected line is dropped and the next one is read
 * from its first character.
 */
module AutomatonMenu {
  import opened Globals

  /** The digit a character stands for: its distance from '0'. */
  function LineDigit(c: char): int
  {
    c as int - '0' as int
  }

  /** Every character of `line` stands for a digit in [start, 8]. */
  predicate DigitsInRange(line: string, start: int)
  {
    forall i :: 0 <= i < |line| ==> start <= LineDigit(line[i]) <= 8
  }

  /** No character of `line` occurs twice. */
  predicate NoRepeats(line: string)
  {
    forall i, j :: 0 <= i < j < |line| ==> line[i] != line[j]
  }

  /** What handleBornSurviveInput accepts (an empty line always passes, even when 9 - start < 0). */
  predicate ValidLine(line: string, start: int)
  {
    (line == [] || |line| <= 9 - start) && DigitsInRange(line, start) && NoRepeats(line)
  }

  /** The set of digits a line stands for. */
  function DigitSet(line: string): set<int>
  {
    set i | 0 <= i < |line| :: LineDigit(line[i])
  }

  /** Every element of `s` is a digit in [lo, 8]. */
  predicate RuleDigits(s: set<int>, lo: int)
  {
    forall d :: d in s ==> lo <= d <= 8
  }

  /** Line k of the input, or the empty string that getline leaves once the input is exhausted. */
  function LineAt(input: seq<string>, k: nat): string
  {
    if k < |input| then input[k] else ""
  }

  /** The first valid line at or after line k (|input| when there is none). */
  function FirstValid(input: seq<string>, start: int, k: nat): (j: nat)
    requires k <= |input|
    ensures k <= j <= |input|
    ensures j < |input| ==> ValidLine(input[j], start)
    ensures forall m :: k <= m < j ==> !ValidLine(input[m], start)
    decreases |input| - k
  {
    if k == |input| || ValidLine(input[k], start) then k else FirstValid(input, start, k + 1)
  }

  /** The set handleBornSurviveInput returns: the digits of the first valid line. */
  function Accepted(input: seq<string>, start: int): set<int>
  {
    DigitSet(LineAt(input, FirstValid(input, start, 0)))
  }

  /** The lines left unread after the first valid one. */
  function Remaining(input: seq<string>, start: int): seq<string>
  {
    var j := FirstValid(input, start, 0);
    if j < |input| then input[j + 1..] else []
  }

  /**
   * handleBornSurviveInput: scans the current line character by character,
   * and on the first bad character (out of range, repeated, or past the
   * length bound) clears the set and starts over on the next line.
   */
  method HandleBornSurviveInput(input: seq<string>, start: int) returns (digits: set<int>, rest: seq<string>)
    ensures digits == Accepted(input, start)
    ensures rest == Remaining(input, start)
  {
    var maxSize := 8 - start + 1;
    var k := 0;
    var line := LineAt(input, k);
    digits := {};
    var i := 0;
    while i < |line|
      invariant k <= |input| && line == LineAt(input, k)
      invariant FirstValid(input, start, k) == FirstValid(input, start, 0)
      invariant 0 <= i <= |line|
      invariant ValidLine(line[..i], start)
      invariant digits == DigitSet(line[..i])
      decreases |input| - k, |line| - i
    {
      var digit := LineDigit(line[i]);
      if digit !in digits && i < maxSize && start <= digit <= 8 {
        LineAccepts(line, start, i);
        digits := digits + {digit};
        i := i + 1;
      } else {
        LineRejected(line, start, i);
        digits := {};
        k := k + 1;
        line := LineAt(input, k);
        i := 0;
      }
    }
    assert line[..i] == line;
    rest := if k < |input| then input[k + 1..] else [];
  }

  /** One more distinct digit: the set grows by it and the line keeps no repeats. */
  lemma AppendDigit(typed: string, c: char)
    ensures DigitSet(typed + [c]) == DigitSet(typed) + {LineDigit(c)}
    ensures NoRepeats(typed + [c]) <==> NoRepeats(typed) && LineDigit(c) !in DigitSet(typed)
  {
    var s := typed + [c];
    forall d | d in DigitSet(typed)
      ensures d in DigitSet(s)
    {
      var i :| 0 <= i < |typed| && LineDigit(typed[i]) == d;
      assert s[i] == typed[i];
    }
    assert s[|typed|] == c;
    if LineDigit(c) in DigitSet(typed) {
      var i :| 0 <= i < |typed| && LineDigit(typed[i]) == LineDigit(c);
      assert s[i] == s[|typed|];
    }
    if NoRepeats(typed) && LineDigit(c) !in DigitSet(typed) {
      forall i, j | 0 <= i < j < |s|
        ensures s[i] != s[j]
      {
        if j == |typed| {
          assert LineDigit(typed[i]) in DigitSet(typed);
        } else {
          assert s[i] == typed[i] && s[j] == typed[j];
        }
      }
    }
    if NoRepeats(s) {
      forall i, j | 0 <= i < j < |typed|
        ensures typed[i] != typed[j]
      {
        assert s[i] == typed[i] && s[j] == typed[j];
      }
    }
  }

  /** Removing the last of distinct digits removes exactly its digit from the set. */
  lemma RemoveLastDigit(typed: string)
    requires |typed| > 0 && NoRepeats(typed)
    ensures var last := typed[|typed| - 1];
            DigitSet(typed[..|typed| - 1]) == DigitSet(typed) - {LineDigit(last)} &&
            NoRepeats(typed[..|typed| - 1])
  {
    var front := typed[..|typed| - 1];
    var last := typed[|typed| - 1];
    assert typed == front + [last];
    AppendDigit(front, last);
  }

  /** The character at i passes every check: the checked prefix grows by one. */
  lemma LineAccepts(line: string, start: int, i: int)
    requires 0 <= i < |line| && ValidLine(line[..i], start)
    requires LineDigit(line[i]) !in DigitSet(line[..i]) && i < 8 - start + 1 && start <= LineDigit(line[i]) <= 8
    ensures ValidLine(line[..i + 1], start)
    ensures DigitSet(line[..i + 1]) == DigitSet(line[..i]) + {LineDigit(line[i])}
  {
    assert line[..i + 1] == line[..i] + [line[i]];
    AppendDigit(line[..i], line[i]);
  }

  /** The character at i fails a check: the whole line is invalid. */
  lemma LineRejected(line: string, start: int, i: int)
    requires 0 <= i < |line|
    requires !(LineDigit(line[i]) !in DigitSet(line[..i]) && i < 8 - start + 1 && start <= LineDigit(line[i]) <= 8)
    ensures !ValidLine(line, start)
  {
    if LineDigit(line[i]) in DigitSet(line[..i]) {
      var j :| 0 <= j < i && LineDigit(line[..i][j]) == LineDigit(line[i]);
      assert line[j] == line[i];
    }
  }

  /** A line of digits in [lo, 8] stands for a set of digits in [lo, 8]. */
  lemma DigitSetInRange(line: string, lo: int)
    requires DigitsInRange(line, lo)
    ensures RuleDigits(DigitSet(line), lo)
  {
    forall d | d in DigitSet(line)
      ensures lo <= d <= 8
    {
      var i :| 0 <= i < |line| && LineDigit(line[i]) == d;
    }
  }

  /** The integers in [lo, 8]. */
  function DigitRange(lo: int): (r: set<int>)
    requires 0 <= lo <= 9
    ensures forall d :: d in r <==> lo <= d <= 8
    ensures |r| == 9 - lo
    decreases 9 - lo
  {
    if lo == 9 then {} else {lo} + DigitRange(lo + 1)
  }

  /** Distinct characters stand for distinct digits: the set is as large as the line. */
  lemma {:induction false} DigitSetSize(line: string)
    requires NoRepeats(line)
    ensures |DigitSet(line)| == |line|
    decreases |line|
  {
    if line != [] {
      var front := line[..|line| - 1];
      assert line == front + [line[|line| - 1]];
      AppendDigit(front, line[|line| - 1]);
      DigitSetSize(front);
    } else {
      assert DigitSet(line) == {};
    }
  }

  /**
   * The length bound is implied by the other two checks: distinct digits in
   * [start, 8] are at most 9 - start of them. So a line is accepted exactly
   * when its characters are distinct digits in range.
   */
  lemma LengthCheckImplied(line: string, start: int)
    requires 0 <= start <= 8
    ensures ValidLine(line, start) <==> DigitsInRange(line, start) && NoRepeats(line)
  {
    if DigitsInRange(line, start) && NoRepeats(line) {
      DigitSetSize(line);
      var r := DigitRange(start);
      assert DigitSet(line) <= r;
      SubsetSize(DigitSet(line), r);
    }
  }

  /** A subset is no larger than its superset. */
  lemma SubsetSize(a: set<int>, b: set<int>)
    requires a <= b
    ensures |a| <= |b|
  {
    assert b == a + (b - a);
  }

  /**
   * Whatever the input, the accepted set holds only digits in [start, 8],
   * no more of them than 9 - start; an empty first line gives the empty set.
   */
  lemma AcceptedIsRule(input: seq<string>, start: int)
    ensures RuleDigits(Accepted(input, start), start)
    ensures |Accepted(input, start)| <= 9 - start || Accepted(input, start) == {}
    ensures |input| > 0 && input[0] == "" ==> Accepted(input, start) == {}
  {
    var line := LineAt(input, FirstValid(input, start, 0));
    assert line == "" || ValidLine(line, start);
    if line != "" {
      DigitSetSize(line);
      DigitSetInRange(line, start);
    } else {
      assert DigitSet(line) == {};
    }
  }

  /** A custom born rule (start 1) never holds 0, which would light up the whole grid. */
  lemma CustomBornExcludesZero(input: seq<string>)
    ensures 0 !in Accepted(input, 1)
  {
    AcceptedIsRule(input, 1);
  }

  /** num_to_automaton_name: index 0 is unused, index 2 is "Custom". */
  const AutomatonNames: seq<string> :=
    ["", "Game of Life", "Custom", "Life without Death", "HighLife", "Day and Night", "Seeds", "H-trees",
     "Replicator", "Live Free or Die", "Serviettes", "Iceballs", "DotLife", "Flock", "Maze", "Coral",
     "Grounded Life", "Pseudo Life", "Morley"]

  /** map_born as the constructor fills it. */
  const PresetBorn: map<string, set<int>> :=
    map["Game of Life" := {3}, "Life without Death" := {3}, "HighLife" := {3, 6},
        "Day and Night" := {3, 6, 7, 8}, "Seeds" := {2}, "H-trees" := {1}, "Replicator" := {1, 3, 5, 7},
        "Live Free or Die" := {2}, "Serviettes" := {2, 3, 4}, "Iceballs" := {2, 5, 6, 7, 8},
        "DotLife" := {3}, "Flock" := {3}, "Maze" := {3}, "Coral" := {3}, "Grounded Life" := {3, 5},
        "Pseudo Life" := {3, 5, 7}, "Morley" := {3, 6, 8}]

  /** map_survive as the constructor fills it. */
  const PresetSurvive: map<string, set<int>> :=
    map["Game of Life" := {2, 3}, "Life without Death" := {0, 1, 2, 3, 4, 5, 6, 7, 8}, "HighLife" := {2, 3},
        "Day and Night" := {3, 4, 6, 7, 8}, "Seeds" := {}, "H-trees" := {0, 1, 2, 3, 4, 5, 6, 7, 8},
        "Replicator" := {1, 3, 5, 7}, "Live Free or Die" := {0}, "Serviettes" := {},
        "Iceballs" := {5, 6, 7, 8}, "DotLife" := {0, 2, 3}, "Flock" := {1, 2}, "Maze" := {1, 2, 3, 4, 5},
        "Coral" := {4, 5, 6, 7, 8}, "Grounded Life" := {2, 3}, "Pseudo Life" := {2, 3, 8},
        "Morley" := {2, 4, 5}]

  /** Every listed automaton except "Custom" has a preset in both maps; "Custom" has none. */
  lemma PresetKeys()
    ensures |AutomatonNames| == 19 && AutomatonNames[2] == "Custom"
    ensures "Custom" !in PresetBorn && "Custom" !in PresetSurvive
    ensures forall i :: 1 <= i < |AutomatonNames| && AutomatonNames[i] != "Custom" ==>
              AutomatonNames[i] in PresetBorn && AutomatonNames[i] in PresetSurvive
  {
  }

  /** Every preset born set excludes 0, and every preset digit lies in [0, 8]. */
  lemma PresetRules()
    ensures forall n :: n in PresetBorn ==> RuleDigits(PresetBorn[n], 1)
    ensures forall n :: n in PresetSurvive ==> RuleDigits(PresetSurvive[n], 0)
  {
  }

  /** A few presets, in the usual B/S notation: B3/S23, B36/S23 and B2/S. */
  lemma FamousPresets()
    ensures PresetBorn["Game of Life"] == {3} && PresetSurvive["Game of Life"] == {2, 3}
    ensures PresetBorn["HighLife"] == {3, 6} && PresetSurvive["HighLife"] == {2, 3}
    ensures PresetBorn["Seeds"] == {2} && PresetSurvive["Seeds"] == {}
  {
  }

  /**
   * AutomatonMenuScreen, with the born_digits/survive_digits settings it
   * writes. Custom rules read from the console are stored under "Custom".
   */
  class AutomatonMenuScreen {
    var names: seq<string>
    var mapBorn: map<string, set<int>>
    var mapSurvive: map<string, set<int>>
    var automatonName: string
    var born: set<int>
    var survive: set<int>

    /** Every listed automaton other than "Custom" has both rules, and every stored rule is well formed. */
    predicate Valid()
      reads this
    {
      (forall i :: 1 <= i < |names| && names[i] != "Custom" ==> names[i] in mapBorn && names[i] in mapSurvive) &&
      (forall n :: n in mapBorn ==> RuleDigits(mapBorn[n], 1)) &&
      (forall n :: n in mapSurvive ==> RuleDigits(mapSurvive[n], 0))
    }

    constructor ()
      ensures Valid()
      ensures names == AutomatonNames && mapBorn == PresetBorn && mapSurvive == PresetSurvive
    {
      names := AutomatonNames;
      mapBorn := PresetBorn;
      mapSurvive := PresetSurvive;
      automatonName := "";
      born := {};
      survive := {};
      PresetKeys();
      PresetRules();
    }

    /**
     * run(), from the menu choice on: `choice` is the number handleMenuInput
     * read. "Custom" reads a born rule (start 1) and then a survive rule
     * (start 0) and stores them; the chosen rule becomes the current one.
     */
    method Run(choice: int, input: seq<string>) returns (next: Screen, rest: seq<string>)
      requires Valid()
      requires 1 <= choice < |names|
      modifies this
      ensures Valid() && names == old(names)
      ensures automatonName == names[choice] && next == PatternMenuScreen
      ensures automatonName == "Custom" ==>
                born == Accepted(input, 1) &&
                survive == Accepted(Remaining(input, 1), 0) &&
                rest == Remaining(Remaining(input, 1), 0) &&
                mapBorn == old(mapBorn)["Custom" := born] && mapSurvive == old(mapSurvive)["Custom" := survive]
      ensures automatonName != "Custom" ==>
                born == mapBorn[automatonName] && survive == mapSurvive[automatonName] &&
                rest == input && mapBorn == old(mapBorn) && mapSurvive == old(mapSurvive)
      ensures RuleDigits(born, 1) && RuleDigits(survive, 0)
    {
      automatonName := names[choice];
      if automatonName == "Custom" {
        rest := ReadCustomRule(input);
      } else {
        rest := input;
      }
      born := mapBorn[automatonName];
      survive := mapSurvive[automatonName];
      next := PatternMenuScreen;
    }

    /** The "Custom" branch of run(): a born rule (start 1), then a survive rule (start 0), stored under "Custom". */
    method ReadCustomRule(input: seq<string>) returns (rest: seq<string>)
      requires Valid()
      modifies this
      ensures Valid() && names == old(names) && automatonName == old(automatonName)
      ensures born == old(born) && survive == old(survive)
      ensures mapBorn == old(mapBorn)["Custom" := Accepted(input, 1)]
      ensures mapSurvive == old(mapSurvive)["Custom" := Accepted(Remaining(input, 1), 0)]
      ensures rest == Remaining(Remaining(input, 1), 0)
    {
      var b, s;
      b, rest := HandleBornSurviveInput(input, 1);
      AcceptedIsRule(input, 1);
      mapBorn := mapBorn["Custom" := b];
      s, rest := HandleBornSurviveInput(rest, 0);
      AcceptedIsRule(Remaining(input, 1), 0);
      mapSurvive := mapSurvive["Custom" := s];
    }
  }
}
