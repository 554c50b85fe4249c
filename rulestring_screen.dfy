/**
 * The rulestring screen: the user types the born digits and then the survive
 * digits into two on-screen prompts, one keystroke per event. A digit is
 * accepted only when it is in range and not typed yet, backspace erases the
 * last typed digit, and enter moves from the born prompt to the survive
 * prompt and then finishes.
 */
module RulestringScreen {
  import opened Globals
  import opened AutomatonMenu

  /**
   * The prompts' captions. The initial born prompt is its caption followed by
   * the cursor '_'; the initial survive prompt is its bare caption, and gets
   * the cursor on enter.
   */
  const BornCaption: string := "Enter born-string (sequence of non-repeating digits in range [1,8]): "
  const SurviveCaption: string := "Enter survive-string (sequence of non-repeating digits in range [0,8]): "

  const Backspace: int := 8
  const Enter: int := 13

  /** Which prompt curr_prompt points at. */
  datatype Prompt = BornPrompt | SurvivePrompt

  /** The events run() reacts to; Other is every other key and every event it ignores. */
  datatype Event = Closed | EscapePressed | TextEntered(unicode: nat) | Other

  /** A prompt's text: its caption, the typed digits, then the cursor. */
  function Display(caption: string, typed: string): string
  {
    caption + typed + "_"
  }

  /** The typed digits can be read back off a displayed prompt. */
  lemma DisplayParts(caption: string, typed: string)
    ensures var text := Display(caption, typed);
            |text| == |caption| + |typed| + 1 && text[..|caption|] == caption &&
            text[|caption|..|text| - 1] == typed && text[|text| - 1] == '_'
  {
    var text := Display(caption, typed);
    assert text[..|caption|] == caption;
    assert text[|caption|..|text| - 1] == typed;
  }

  /** A typed character goes right before the cursor. */
  lemma InsertBeforeCursor(caption: string, typed: string, c: char)
    ensures var text := Display(caption, typed);
            text[..|text| - 1] + [c] + "_" == Display(caption, typed + [c])
  {
    var text := Display(caption, typed);
    assert text[..|text| - 1] == caption + typed;
  }

  /** Backspace erases the character right before the cursor. */
  lemma EraseBeforeCursor(caption: string, typed: string)
    requires typed != []
    ensures var text := Display(caption, typed);
            text[|text| - 2] == typed[|typed| - 1] &&
            text[..|text| - 2] + [text[|text| - 1]] == Display(caption, typed[..|typed| - 1])
  {
    var text := Display(caption, typed);
    assert text[..|text| - 2] == caption + typed[..|typed| - 1];
  }

  /** RulestringMenuScreen, with the born_digits/survive_digits settings and the state of its run(). */
  class RulestringMenuScreen {
    /** initial_born_prompt_str is bornCaption + "_", initial_survive_prompt_str is surviveCaption. */
    const bornCaption: string
    const surviveCaption: string
    var bornPrompt: string
    var survivePrompt: string
    var born: set<int>
    var survive: set<int>
    // run()'s locals: curr_prompt, curr_lower_limit, curr_prompt_initial_size, curr_prompt_digits
    var curr: Prompt
    var lowerLimit: int
    var initialSize: int
    var digits: set<int>
    /** The digits typed on the current prompt (the text between its caption and its cursor). */
    var typed: string

    function Caption(): string
      reads this
    {
      if curr == BornPrompt then bornCaption else surviveCaption
    }

    function Current(): string
      reads this
    {
      if curr == BornPrompt then bornPrompt else survivePrompt
    }

    /** Between runs both prompts show their initial text. */
    predicate Idle()
      reads this
    {
      bornPrompt == bornCaption + "_" && survivePrompt == surviveCaption
    }

    /**
     * During run(): the current prompt shows exactly the typed digits, which
     * are distinct and in [lower limit, 8], and the digit set is theirs. The
     * born stage has lower limit 1 and an untouched survive prompt; in the
     * survive stage the stored born rule holds no 0.
     */
    predicate Valid()
      reads this
    {
      Current() == Display(Caption(), typed) && initialSize == |Caption()| + 1 &&
      (curr == BornPrompt ==> lowerLimit == 1 && survivePrompt == surviveCaption) &&
      (curr == SurvivePrompt ==> lowerLimit == 0 && RuleDigits(born, 1)) &&
      DigitsInRange(typed, lowerLimit) && NoRepeats(typed) && digits == DigitSet(typed)
    }

    constructor ()
      ensures bornCaption == BornCaption && surviveCaption == SurviveCaption
      ensures Idle() && born == {} && survive == {}
    {
      bornCaption := BornCaption;
      surviveCaption := SurviveCaption;
      bornPrompt := BornCaption + "_";
      survivePrompt := SurviveCaption;
      born := {};
      survive := {};
      curr := BornPrompt;
      lowerLimit := 1;
      initialSize := |BornCaption| + 1;
      digits := {};
      typed := "";
    }

    /** The start of run(): the born prompt is current, with lower limit 1 and nothing typed. */
    method Start()
      requires Idle()
      modifies this
      ensures Valid() && curr == BornPrompt && typed == "" && digits == {}
      ensures bornPrompt == old(bornPrompt) && survivePrompt == old(survivePrompt)
      ensures born == old(born) && survive == old(survive)
    {
      curr := BornPrompt;
      lowerLimit := 1;
      initialSize := |bornPrompt|;
      digits := {};
      typed := "";
      assert Current() == Display(Caption(), typed);
    }

    /** One event of run()'s loop; Some(screen) when run() returns. */
    method HandleEvent(e: Event) returns (next: Option<Screen>)
      requires Valid()
      modifies this
      ensures next == None || next == Some(Exit) ==> Valid()
      ensures next == Some(AutomatonMenuScreen) || next == Some(PatternMenuScreen) ==> Idle()
      ensures e == Closed ==> next == Some(Exit) && unchanged(this)
      ensures e == Other ==> next == None && unchanged(this)
      ensures e == EscapePressed ==>
                next == Some(AutomatonMenuScreen) && born == old(born) && survive == old(survive)
      ensures e.TextEntered? && '0' as int + old(lowerLimit) <= e.unicode <= '8' as int &&
              e.unicode - '0' as int !in old(digits) ==>
                next == None && typed == old(typed) + [e.unicode as char] &&
                digits == old(digits) + {e.unicode - '0' as int} && born == old(born) && survive == old(survive)
      ensures e.TextEntered? && e.unicode == Backspace && old(typed) != [] ==>
                next == None && typed == old(typed)[..|old(typed)| - 1] &&
                born == old(born) && survive == old(survive)
      ensures e.TextEntered? && e.unicode == Enter ==>
                if old(curr) == BornPrompt then
                  next == None && curr == SurvivePrompt && born == old(digits) && survive == old(survive)
                else
                  next == Some(PatternMenuScreen) && survive == old(digits) && born == old(born)
    {
      match e
      case Closed =>
        next := Some(Exit);
      case EscapePressed =>
        bornPrompt := bornCaption + "_";
        survivePrompt := surviveCaption;
        next := Some(AutomatonMenuScreen);
      case TextEntered(unicode) =>
        next := HandleText(unicode);
      case Other =>
        next := None;
    }

    /**
     * A TextEntered event. A digit in [lower limit, 8] not typed yet is
     * appended; backspace erases the last typed digit when there is one;
     * enter on the born prompt stores the born rule and moves to the survive
     * prompt, and enter on the survive prompt stores the survive rule, resets
     * both prompts and leaves for the pattern menu. Anything else is ignored.
     */
    method HandleText(unicode: nat) returns (next: Option<Screen>)
      requires Valid()
      modifies this
      ensures next == None ==> Valid()
      ensures next != None ==> next == Some(PatternMenuScreen) && Idle()
      ensures var d := unicode - '0' as int;
              if '0' as int + old(lowerLimit) <= unicode <= '8' as int && d !in old(digits) then
                next == None && curr == old(curr) && typed == old(typed) + [unicode as char] &&
                digits == old(digits) + {d} && born == old(born) && survive == old(survive)
              else if unicode == Backspace && old(typed) != [] then
                next == None && curr == old(curr) && typed == old(typed)[..|old(typed)| - 1] &&
                digits == old(digits) - {LineDigit(old(typed)[|old(typed)| - 1])} &&
                born == old(born) && survive == old(survive)
              else if unicode == Enter && old(curr) == BornPrompt then
                next == None && curr == SurvivePrompt && typed == [] && digits == {} &&
                born == old(digits) && bornPrompt == bornCaption + old(typed) && survive == old(survive)
              else if unicode == Enter then
                next == Some(PatternMenuScreen) && survive == old(digits) && born == old(born) &&
                RuleDigits(born, 1) && RuleDigits(survive, 0)
              else
                next == None && unchanged(this)
    {
      next := None;
      if '0' as int + lowerLimit <= unicode <= '8' as int && unicode - '0' as int !in digits {
        TypeDigit(unicode as char);
      } else if unicode == Backspace && initialSize < |Current()| {
        DisplayParts(Caption(), typed);
        EraseDigit();
      } else if unicode == Enter {
        if lowerLimit == 1 {
          EnterBorn();
        } else {
          EnterSurvive();
          next := Some(PatternMenuScreen);
        }
      }
    }

    /** An accepted digit is inserted before the cursor and added to the set. */
    method TypeDigit(c: char)
      requires Valid() && '0' as int + lowerLimit <= c as int <= '8' as int && LineDigit(c) !in digits
      modifies this
      ensures Valid() && curr == old(curr) && typed == old(typed) + [c] && digits == old(digits) + {LineDigit(c)}
      ensures born == old(born) && survive == old(survive)
    {
      var text := Current();
      digits := digits + {LineDigit(c)};
      InsertBeforeCursor(Caption(), typed, c);
      AppendDigit(typed, c);
      SetCurrent(text[..|text| - 1] + [c] + "_");
      typed := typed + [c];
    }

    /** Backspace erases the digit before the cursor from the text and from the set. */
    method EraseDigit()
      requires Valid() && typed != []
      modifies this
      ensures Valid() && curr == old(curr) && typed == old(typed)[..|old(typed)| - 1]
      ensures digits == old(digits) - {LineDigit(old(typed)[|old(typed)| - 1])}
      ensures born == old(born) && survive == old(survive)
    {
      var text := Current();
      EraseBeforeCursor(Caption(), typed);
      RemoveLastDigit(typed);
      digits := digits - {LineDigit(text[|text| - 2])};
      SetCurrent(text[..|text| - 2] + [text[|text| - 1]]);
      typed := typed[..|typed| - 1];
    }

    /** Enter on the born prompt: the cursor moves to the survive prompt and the born rule is stored. */
    method EnterBorn()
      requires Valid() && curr == BornPrompt
      modifies this
      ensures Valid() && curr == SurvivePrompt && typed == [] && digits == {}
      ensures born == old(digits) && bornPrompt == bornCaption + old(typed) && survive == old(survive)
    {
      var text := Current();
      DisplayParts(Caption(), typed);
      DigitSetInRange(typed, lowerLimit);
      bornPrompt := text[..|text| - 1];
      survivePrompt := survivePrompt + "_";
      curr := SurvivePrompt;
      lowerLimit := lowerLimit - 1;
      initialSize := |survivePrompt|;
      born := digits;
      digits := {};
      typed := [];
      assert Current() == Display(Caption(), typed);
    }

    /** Enter on the survive prompt: the survive rule is stored and both prompts are reset. */
    method EnterSurvive()
      requires Valid() && curr == SurvivePrompt
      modifies this
      ensures Idle() && survive == old(digits) && born == old(born)
      ensures RuleDigits(born, 1) && RuleDigits(survive, 0)
    {
      DigitSetInRange(typed, lowerLimit);
      bornPrompt := bornCaption + "_";
      survivePrompt := surviveCaption;
      survive := digits;
    }

    /** curr_prompt->setString: replaces the text of the current prompt only. */
    method SetCurrent(text: string)
      modifies this
      ensures Current() == text && curr == old(curr)
      ensures curr == BornPrompt ==> survivePrompt == old(survivePrompt)
      ensures curr == SurvivePrompt ==> bornPrompt == old(bornPrompt)
      ensures born == old(born) && survive == old(survive) && lowerLimit == old(lowerLimit)
      ensures initialSize == old(initialSize) && digits == old(digits) && typed == old(typed)
    {
      if curr == BornPrompt {
        bornPrompt := text;
      } else {
        survivePrompt := text;
      }
    }
  }
}
