/** The semi-automatic spell checker (code/spell_checking_semi_auto/script_spell_checking.py):
    how a correction is spliced into the text with the case of the original
    span, the context window printed around an error, the validation and
    the meaning of the user's answer, and the loop of `process_block`.

    The spelling service and the console are parameters: `replies` are the
    error lists the service returns, one per round, and `inputs` are the
    lines the user types. */
module SpellCheck {
  import opened Common
  import opened Text
  import opened Sorting

  /** One error reported by the service: position, length and the
      suggestions under `s` (missing `s` reads as no suggestions). */
  datatype ErrorSpan = ErrorSpan(pos: nat, len: nat, s: seq<string>)

  /** The defaults `suggestions_limit` and `context_window`. */
  const SuggestionsLimit: nat := 5
  const ContextWindow: nat := 50

  /** Python's `t[a:b]` for non-negative bounds: both are clamped to the
      length, and a reversed range is empty. */
  function Slice(t: string, a: nat, b: nat): (r: string)
    ensures |r| <= |t|
  {
    var a', b' := Min(a, |t|), Min(b, |t|);
    if a' <= b' then t[a'..b'] else ""
  }

  predicate HasUpper(s: string) {
    exists i :: 0 <= i < |s| && IsUpper(s[i])
  }

  function CapitalizeAll(parts: seq<string>): (r: seq<string>)
    ensures |r| == |parts| && forall k :: 0 <= k < |parts| ==> r[k] == Capitalize(parts[k])
  {
    if parts == [] then [] else [Capitalize(parts[0])] + CapitalizeAll(parts[1..])
  }

  /** The case rules of `apply_correction`, in their priority order. */
  function AdjustCase(original: string, correction: string): string {
    if original != Lower(original) then
      if IsTitle(original) then Title(correction)
      else if AllUpper(original) then Upper(correction)
      else if '-' in original then Join(CapitalizeAll(Split(correction, '-')), '-')
      else correction
    else correction
  }

  /** `apply_correction`: the case-adjusted correction replaces
      `text[pos:pos+len]`. */
  function ApplyCorrection(text: string, error: ErrorSpan, correction: string): string {
    var start, end := error.pos, error.pos + error.len;
    var a, b := Min(start, |text|), Min(end, |text|);
    text[..a] + AdjustCase(Slice(text, start, end), correction) + text[b..]
  }

  /** Everything before the span and after it is kept, and the case-adjusted
      correction sits in between. */
  lemma ApplyCorrectionSplice(text: string, error: ErrorSpan, correction: string)
    ensures var r := ApplyCorrection(text, error, correction);
      var a, b := Min(error.pos, |text|), Min(error.pos + error.len, |text|);
      var fix := AdjustCase(Slice(text, error.pos, error.pos + error.len), correction);
      |r| == a + |fix| + (|text| - b) &&
      r[..a] == text[..a] && r[a..a + |fix|] == fix && r[a + |fix|..] == text[b..]
  {
    var a, b := Min(error.pos, |text|), Min(error.pos + error.len, |text|);
    var fix := AdjustCase(Slice(text, error.pos, error.pos + error.len), correction);
    assert ApplyCorrection(text, error, correction) == text[..a] + fix + text[b..];
    Splice(text[..a], fix, text[b..]);
  }

  /** The three parts of a concatenation can be read back by slicing. */
  lemma Splice(x: string, y: string, z: string)
    ensures var r := x + y + z;
      |r| == |x| + |y| + |z| && r[..|x|] == x && r[|x|..|x| + |y|] == y && r[|x| + |y|..] == z
  {
  }

  /** An original without upper-case letters takes the correction verbatim. */
  lemma AdjustCaseVerbatim(original: string, correction: string)
    requires !HasUpper(original)
    ensures AdjustCase(original, correction) == correction
  {
    LowerFixed(original);
  }

  /** With an upper-case letter in the original the rules apply in order:
      title case, then all upper case, then capitalised hyphen parts. */
  lemma AdjustCaseRules(original: string, correction: string)
    requires HasUpper(original)
    ensures IsTitle(original) ==> AdjustCase(original, correction) == Title(correction)
    ensures !IsTitle(original) && AllUpper(original) ==> AdjustCase(original, correction) == Upper(correction)
    ensures !IsTitle(original) && !AllUpper(original) && '-' in original ==>
              AdjustCase(original, correction) == Join(CapitalizeAll(Split(correction, '-')), '-')
    ensures !IsTitle(original) && !AllUpper(original) && '-' !in original ==>
              AdjustCase(original, correction) == correction
  {
    var i :| 0 <= i < |original| && IsUpper(original[i]);
    assert Lower(original)[i] != original[i];
  }

  /** Putting back a span without upper-case letters gives back the text. */
  lemma ApplyOriginal(text: string, error: ErrorSpan)
    requires !HasUpper(Slice(text, error.pos, error.pos + error.len))
    ensures ApplyCorrection(text, error, Slice(text, error.pos, error.pos + error.len)) == text
  {
    var original := Slice(text, error.pos, error.pos + error.len);
    AdjustCaseVerbatim(original, original);
    ApplyCorrectionSplice(text, error, original);
    var a, b := Min(error.pos, |text|), Min(error.pos + error.len, |text|);
    assert text[..a] + original + text[b..] == text by {
      assert original == text[a..b];
      assert text[..a] + text[a..b] == text[..b];
      assert text[..b] + text[b..] == text;
    }
  }

  /** The bounds of the context `_print_context` shows. */
  function ContextBounds(textLength: nat, pos: nat, length: nat, window: nat): (bounds: (nat, nat))
    ensures bounds.1 <= textLength
  {
    (Max(0, pos - window), Min(textLength, pos + length + window))
  }

  /** The context reaches at most `window` characters beyond either side of
      the error, and covers the whole error when the error lies in the text. */
  lemma ContextCoversError(textLength: nat, pos: nat, length: nat, window: nat)
    ensures var (start, end) := ContextBounds(textLength, pos, length, window);
      pos - window <= start && end <= pos + length + window &&
      (pos + length <= textLength ==> start <= pos && pos + length <= end)
  {
  }

  /** The suggestions offered: the first `limit` of the service's list. */
  function Offered(e: ErrorSpan, limit: nat): (r: seq<string>)
    ensures |r| == Min(limit, |e.s|) && r == e.s[..|r|]
  {
    e.s[..Min(limit, |e.s|)]
  }

  // ---- the user's answer ----

  /** A typed line as `_get_user_choice` reads it. */
  function Normalize(line: string): string {
    Lower(Trim(line, true))
  }

  /** The answer is the one-letter command `letter`. */
  predicate Is(c: string, letter: char) {
    |c| == 1 && c[0] == letter
  }

  /** `choice in {'s', 'm', 'q'}`. */
  predicate IsCommand(c: string) {
    Is(c, 's') || Is(c, 'm') || Is(c, 'q')
  }

  /** `choice.isdigit() and 1 <= int(choice) <= n`. */
  predicate IsNumberChoice(c: string, n: nat) {
    IsDigits(c) && 1 <= DigitValue(c) <= n
  }

  /** The answers `_get_user_choice` accepts. */
  predicate ValidChoice(c: string, n: nat) {
    IsCommand(c) || IsNumberChoice(c, n)
  }

  /** A typed line is accepted: stripped and lower-cased, it is a valid choice. */
  predicate Accepted(line: string, n: nat) {
    ValidChoice(Normalize(line), n)
  }

  /** The acceptance test as a function of the line. */
  function AcceptedIn(n: nat): string -> bool {
    line => Accepted(line, n)
  }

  /** The answer and the lines left after it; `None` when the input ends
      first (`input()` raises `EOFError`). */
  function UserChoice(inputs: seq<string>, n: nat): (Option<string>, seq<string>) {
    match FirstWhere(inputs, AcceptedIn(n), 0)
    case Some(k) => (Some(Normalize(inputs[k])), inputs[k + 1..])
    case None => (None, [])
  }

  /** `_get_user_choice`: asks until an acceptable line arrives. */
  method GetUserChoice(inputs: seq<string>, n: nat) returns (choice: Option<string>, rest: seq<string>)
    ensures (choice, rest) == UserChoice(inputs, n)
    ensures choice.Some? ==> ValidChoice(choice.value, n)
  {
    var i := 0;
    while i < |inputs|
      invariant 0 <= i <= |inputs|
      invariant FirstWhere(inputs, AcceptedIn(n), 0) == FirstWhere(inputs, AcceptedIn(n), i)
    {
      var c := Normalize(inputs[i]);
      if IsCommand(c) || IsNumberChoice(c, n) {
        assert Accepted(inputs[i], n);
        return Some(c), inputs[i + 1..];
      }
      assert !Accepted(inputs[i], n);
      i := i + 1;
    }
    return None, [];
  }

  /** What `_handle_choice` produces: a correction (with the lines left), an
      interrupt, the end of the input, or an index error. */
  datatype Handled = Correction(text: string, rest: seq<string>) | Interrupt | EndOfInput | IndexError

  /** `_handle_choice`: `m` reads the correction from the next line, `q`
      interrupts, digits pick a suggestion (with Python's indexing, so `0`
      picks the last one), and anything else is the empty correction. */
  function HandleChoice(choice: string, suggestions: seq<string>, inputs: seq<string>): Handled {
    if Is(choice, 'm') then
      if inputs == [] then EndOfInput else Correction(Trim(inputs[0], true), inputs[1..])
    else if Is(choice, 'q') then Interrupt
    else if IsDigits(choice) then
      var k := DigitValue(choice) - 1;
      if 0 <= k < |suggestions| then Correction(suggestions[k], inputs)
      else if k == -1 && suggestions != [] then Correction(suggestions[|suggestions| - 1], inputs)
      else IndexError
    else Correction("", inputs)
  }

  /** On an accepted answer the mapping is total: a number picks its
      suggestion, `m` takes the next line stripped (or ends at the end of the
      input), and every answer other than `m` and `q` (that is, `s`) is the
      empty correction. */
  lemma HandleValidChoice(choice: string, suggestions: seq<string>, inputs: seq<string>)
    requires ValidChoice(choice, |suggestions|)
    ensures HandleChoice(choice, suggestions, inputs) != IndexError
    ensures IsDigits(choice) ==>
              HandleChoice(choice, suggestions, inputs) == Correction(suggestions[DigitValue(choice) - 1], inputs)
    ensures Is(choice, 'q') <==> HandleChoice(choice, suggestions, inputs) == Interrupt
    ensures Is(choice, 's') ==> HandleChoice(choice, suggestions, inputs) == Correction("", inputs)
    ensures Is(choice, 'm') ==>
              HandleChoice(choice, suggestions, inputs) ==
                (if inputs == [] then EndOfInput else Correction(Trim(inputs[0], true), inputs[1..]))
  {
  }

  // ---- the rounds of `process_block` ----

  /** How a round or a block ends: normally, by `q` (`KeyboardInterrupt`),
      by the end of the input (`EOFError`), or by an `IndexError`. */
  datatype Status = Running | Interrupted | OutOfInput | Failed

  datatype RoundResult = RoundResult(text: string, inputs: seq<string>, changed: bool, status: Status)

  function PosKey(e: ErrorSpan): real { e.pos as real }

  /** `sorted(errors, key=lambda x: -x['pos'])`: stable, by descending
      position. */
  function ByPosDesc(errors: seq<ErrorSpan>): (r: seq<ErrorSpan>)
    ensures multiset(r) == multiset(errors)
    ensures forall i, j :: 0 <= i < j < |r| ==> r[i].pos >= r[j].pos
  {
    SortDesc(errors, PosKey)
  }

  /** One error of a round, where an answer equal to `skip` leaves the text
      alone. */
  function StepWith(skip: string, text: string, e: ErrorSpan, inputs: seq<string>, changed: bool): RoundResult {
    var suggestions := Offered(e, SuggestionsLimit);
    match UserChoice(inputs, |suggestions|)
    case (None, rest) => RoundResult(text, rest, changed, OutOfInput)
    case (Some(choice), rest) =>
      if choice == skip then RoundResult(text, rest, changed, Running)
      else
        match HandleChoice(choice, suggestions, rest)
        case Correction(correction, rest') => RoundResult(ApplyCorrection(text, e, correction), rest', true, Running)
        case Interrupt => RoundResult(text, rest, changed, Interrupted)
        case EndOfInput => RoundResult(text, [], changed, OutOfInput)
        case IndexError => RoundResult(text, rest, changed, Failed)
  }

  /** The step of the program as written: the answer is compared with
      `'skip'`, which `_get_user_choice` never returns. */
  function Step(text: string, e: ErrorSpan, inputs: seq<string>, changed: bool): RoundResult {
    StepWith("skip", text, e, inputs, changed)
  }

  /** The step with the evidently intended comparison with `'s'`. */
  function StepFixed(text: string, e: ErrorSpan, inputs: seq<string>, changed: bool): RoundResult {
    StepWith("s", text, e, inputs, changed)
  }

  /** A line `s` is accepted as the answer `s`. */
  lemma AnswerS(rest: seq<string>, n: nat)
    ensures UserChoice(["s"] + rest, n) == (Some("s"), rest)
  {
    var inputs := ["s"] + rest;
    NormalizeS();
    assert FirstWhere(inputs, AcceptedIn(n), 0) == Some(0) by {
      assert inputs[0] == "s" && Is("s", 's');
      assert AcceptedIn(n)(inputs[0]);
    }
    assert inputs[1..] == rest;
  }

  /** The line `s` reads as the answer `s`. */
  lemma NormalizeS()
    ensures Normalize("s") == "s"
  {
    assert Trim("s", true) == "s";
  }

  /** `_handle_choice('s')` is the empty correction. */
  lemma HandleS(suggestions: seq<string>, rest: seq<string>)
    ensures HandleChoice("s", suggestions, rest) == Correction("", rest)
  {
    assert "s"[0] == 's' && !IsDigits("s");
  }

  /** The empty correction stays empty whatever the case of the span. */
  lemma AdjustEmpty(original: string)
    ensures AdjustCase(original, "") == ""
  {
    if original != Lower(original) && IsTitle(original) {
      assert |Title("")| == 0;
    }
  }

  /** As written, the answer `s` applies the empty correction to the span
      and counts as a change, wherever the span lies. */
  lemma SkipAsWrittenStep(text: string, e: ErrorSpan, rest: seq<string>, changed: bool)
    ensures Step(text, e, ["s"] + rest, changed) == RoundResult(ApplyCorrection(text, e, ""), rest, true, Running)
  {
    var suggestions := Offered(e, SuggestionsLimit);
    AnswerS(rest, |suggestions|);
    HandleS(suggestions, rest);
    assert "s" != "skip";
  }

  /** Answering `s` as written deletes a span holding a character, and counts
      as a change. */
  lemma SkipAsWrittenDeletes(text: string, e: ErrorSpan, rest: seq<string>)
    requires e.pos < e.pos + e.len <= |text|
    ensures Step(text, e, ["s"] + rest, false) ==
            RoundResult(text[..e.pos] + text[e.pos + e.len..], rest, true, Running)
    ensures |Step(text, e, ["s"] + rest, false).text| < |text|
  {
    SkipAsWrittenStep(text, e, rest, false);
    ApplyEmpty(text, e);
  }

  /** The empty correction deletes the span. */
  lemma ApplyEmpty(text: string, e: ErrorSpan)
    requires e.pos + e.len <= |text|
    ensures ApplyCorrection(text, e, "") == text[..e.pos] + text[e.pos + e.len..]
  {
    AdjustEmpty(Slice(text, e.pos, e.pos + e.len));
    ApplyCorrectionSplice(text, e, "");
    var r := ApplyCorrection(text, e, "");
    assert r == r[..e.pos] + r[e.pos..];
  }

  /** Answering `s` with the intended comparison keeps the text as it is. */
  lemma SkipKeepsText(text: string, e: ErrorSpan, rest: seq<string>, changed: bool)
    ensures StepFixed(text, e, ["s"] + rest, changed) == RoundResult(text, rest, changed, Running)
  {
    AnswerS(rest, |Offered(e, SuggestionsLimit)|);
  }

  /** The errors of one round in turn, each handled by `step`; the round
      stops at an interrupt, at the end of the input or at an error. */
  function RoundBy(step: (string, ErrorSpan, seq<string>, bool) -> RoundResult,
                   text: string, errors: seq<ErrorSpan>, inputs: seq<string>, changed: bool): RoundResult
    decreases |errors|
  {
    if errors == [] then RoundResult(text, inputs, changed, Running)
    else
      var r := step(text, errors[0], inputs, changed);
      if r.status != Running then r else RoundBy(step, r.text, errors[1..], r.inputs, r.changed)
  }

  /** One round of `process_block` as written. */
  function Round(text: string, errors: seq<ErrorSpan>, inputs: seq<string>, changed: bool): RoundResult {
    RoundBy(Step, text, errors, inputs, changed)
  }

  /** One round with the intended skip test. */
  function RoundFixed(text: string, errors: seq<ErrorSpan>, inputs: seq<string>, changed: bool): RoundResult {
    RoundBy(StepFixed, text, errors, inputs, changed)
  }

  /** The result of `process_block`: the corrected text and how it ended. */
  datatype BlockResult = BlockResult(text: string, status: Status)

  /** `process_block` as rounds whose errors are handled by `step`: each
      round asks the service (the next reply; no reply left means no errors)
      and the rounds stop when there are no errors, when nothing was changed,
      or when a round does not end normally. */
  function CheckedBy(step: (string, ErrorSpan, seq<string>, bool) -> RoundResult,
                     text: string, replies: seq<seq<ErrorSpan>>, inputs: seq<string>): BlockResult
    decreases |replies|
  {
    var errors := if replies == [] then [] else replies[0];
    if errors == [] then BlockResult(text, Running)
    else
      var r := RoundBy(step, text, ByPosDesc(errors), inputs, false);
      if r.status != Running then BlockResult(r.text, r.status)
      else if !r.changed then BlockResult(r.text, Running)
      else CheckedBy(step, r.text, replies[1..], r.inputs)
  }

  /** `process_block` as written. */
  function Checked(text: string, replies: seq<seq<ErrorSpan>>, inputs: seq<string>): BlockResult {
    CheckedBy(Step, text, replies, inputs)
  }

  /** `process_block` with the intended skip test. */
  function CheckedFixed(text: string, replies: seq<seq<ErrorSpan>>, inputs: seq<string>): BlockResult {
    CheckedBy(StepFixed, text, replies, inputs)
  }

  /** `process_block`: rounds of checking until the service reports no
      error or a round changes nothing. */
  method ProcessBlock(block: string, replies: seq<seq<ErrorSpan>>, inputs: seq<string>)
    returns (corrected: string, status: Status)
    ensures BlockResult(corrected, status) == Checked(block, replies, inputs)
  {
    corrected := block;
    var ins := inputs;
    var asked := 0;
    while true
      invariant asked <= |replies|
      invariant Checked(corrected, replies[asked..], ins) == Checked(block, replies, inputs)
      decreases |replies| - asked
    {
      var errors := if asked < |replies| then replies[asked] else [];
      if errors == [] {
        return corrected, Running;
      }
      var r := RunRound(corrected, ByPosDesc(errors), ins);
      if r.status != Running {
        return r.text, r.status;
      }
      if !r.changed {
        return r.text, Running;
      }
      assert replies[asked..][1..] == replies[asked + 1..];
      corrected, ins := r.text, r.inputs;
      asked := asked + 1;
    }
  }

  /** The `for error in sorted(...)` loop of one round, with the skip test
      as written. */
  method RunRound(text: string, errors: seq<ErrorSpan>, inputs: seq<string>) returns (r: RoundResult)
    ensures r == Round(text, errors, inputs, false)
  {
    var corrected, ins, changesMade := text, inputs, false;
    for i := 0 to |errors|
      invariant Round(corrected, errors[i..], ins, changesMade) == Round(text, errors, inputs, false)
    {
      var error := errors[i];
      var suggestions := Offered(error, SuggestionsLimit);
      var choice, rest := GetUserChoice(ins, |suggestions|);
      if choice.None? {
        return RoundResult(corrected, rest, changesMade, OutOfInput);
      }
      assert errors[i..][1..] == errors[i + 1..];
      if choice.value == "skip" {
        ins := rest;
      } else {
        match HandleChoice(choice.value, suggestions, rest)
        case Correction(correction, rest') =>
          corrected := ApplyCorrection(corrected, error, correction);
          ins := rest';
          changesMade := true;
        case Interrupt =>
          return RoundResult(corrected, rest, changesMade, Interrupted);
        case EndOfInput =>
          return RoundResult(corrected, [], changesMade, OutOfInput);
        case IndexError =>
          return RoundResult(corrected, rest, changesMade, Failed);
      }
    }
    return RoundResult(corrected, ins, changesMade, Running);
  }

  // ---- why the errors go in descending order ----

  /** The spans do not overlap and come by descending position: each span
      ends at or before the start of every span listed before it. */
  predicate DescendingDisjoint(errors: seq<ErrorSpan>) {
    forall i, j :: 0 <= i < j < |errors| ==> errors[j].pos + errors[j].len <= errors[i].pos
  }

  /** `u` starts with the first `p` characters of `t` (or all of `t` when it
      is shorter). */
  predicate KeptBefore(t: string, u: string, p: nat) {
    var a := Min(p, |t|);
    a <= |u| && u[..a] == t[..a]
  }

  /** A step that leaves the text before the error's position alone. */
  ghost predicate KeepsPrefix(step: (string, ErrorSpan, seq<string>, bool) -> RoundResult) {
    forall t, e, ins, ch :: KeptBefore(t, step(t, e, ins, ch).text, e.pos)
  }

  /** Whatever the skip test, a step changes the text only from the
      error's position on. */
  lemma StepWithPrefix(skip: string, text: string, e: ErrorSpan, inputs: seq<string>, changed: bool)
    ensures KeptBefore(text, StepWith(skip, text, e, inputs, changed).text, e.pos)
  {
    var suggestions := Offered(e, SuggestionsLimit);
    match UserChoice(inputs, |suggestions|)
    case (None, rest) =>
    case (Some(choice), rest) =>
      if choice != skip {
        match HandleChoice(choice, suggestions, rest)
        case Correction(correction, rest') => ApplyCorrectionSplice(text, e, correction);
        case Interrupt =>
        case EndOfInput =>
        case IndexError =>
      }
  }

  /** Both the step as written and the intended one keep the text before
      the error. */
  lemma StepsKeepPrefix()
    ensures KeepsPrefix(Step) && KeepsPrefix(StepFixed)
  {
    forall t, e, ins, ch ensures KeptBefore(t, Step(t, e, ins, ch).text, e.pos) {
      StepWithPrefix("skip", t, e, ins, ch);
    }
    forall t, e, ins, ch ensures KeptBefore(t, StepFixed(t, e, ins, ch).text, e.pos) {
      StepWithPrefix("s", t, e, ins, ch);
    }
  }

  /** A round of such steps whose errors all start at or after `p` keeps
      the first `p` characters. */
  lemma {:induction false} RoundByPrefix(step: (string, ErrorSpan, seq<string>, bool) -> RoundResult,
                                         text: string, errors: seq<ErrorSpan>, inputs: seq<string>, changed: bool, p: nat)
    requires KeepsPrefix(step)
    requires p <= |text|
    requires forall k :: 0 <= k < |errors| ==> p <= errors[k].pos
    ensures var r := RoundBy(step, text, errors, inputs, changed);
      p <= |r.text| && r.text[..p] == text[..p]
    decreases |errors|
  {
    if errors != [] {
      var r := step(text, errors[0], inputs, changed);
      var a := Min(errors[0].pos, |text|);
      assert KeptBefore(text, r.text, errors[0].pos);
      assert r.text[..a][..p] == r.text[..p] && text[..a][..p] == text[..p];
      if r.status == Running {
        RoundByPrefix(step, r.text, errors[1..], r.inputs, r.changed, p);
      }
    }
  }

  /** A round of the program whose errors all start at or after `p` keeps
      the first `p` characters. */
  lemma RoundPrefix(text: string, errors: seq<ErrorSpan>, inputs: seq<string>, changed: bool, p: nat)
    requires p <= |text|
    requires forall k :: 0 <= k < |errors| ==> p <= errors[k].pos
    ensures var r := Round(text, errors, inputs, changed);
      p <= |r.text| && r.text[..p] == text[..p]
  {
    StepsKeepPrefix();
    RoundByPrefix(Step, text, errors, inputs, changed, p);
  }

  /** A round over `errors` is the round over the first `k` of them followed
      by the round over the rest, when the first part ends normally. */
  lemma RoundSplit(text: string, errors: seq<ErrorSpan>, inputs: seq<string>, changed: bool, k: nat)
    requires k <= |errors|
    ensures var r := Round(text, errors[..k], inputs, changed);
      Round(text, errors, inputs, changed) ==
        if r.status == Running then Round(r.text, errors[k..], r.inputs, r.changed) else r
  {
    RoundBySplit(Step, text, errors, inputs, changed, k);
  }

  /** The same for a round with any step. */
  lemma {:induction false} RoundBySplit(step: (string, ErrorSpan, seq<string>, bool) -> RoundResult,
                                        text: string, errors: seq<ErrorSpan>, inputs: seq<string>, changed: bool, k: nat)
    requires k <= |errors|
    ensures var r := RoundBy(step, text, errors[..k], inputs, changed);
      RoundBy(step, text, errors, inputs, changed) ==
        if r.status == Running then RoundBy(step, r.text, errors[k..], r.inputs, r.changed) else r
    decreases k
  {
    if k > 0 {
      assert errors[..k][0] == errors[0];
      assert errors[..k][1..] == errors[1..][..k - 1];
      var r := step(text, errors[0], inputs, changed);
      if r.status == Running {
        RoundBySplit(step, r.text, errors[1..], r.inputs, r.changed, k - 1);
        assert errors[1..][k - 1..] == errors[k..];
      }
    } else {
      assert errors[..k] == [];
      assert errors[k..] == errors;
    }
  }

  /** The ordering discipline of `process_block`: with non-overlapping spans
      inside the text taken by descending position, when the round reaches
      error `k` the text still holds that error's original span, whatever
      was corrected before it. */
  lemma OffsetsStayValid(text: string, errors: seq<ErrorSpan>, inputs: seq<string>, k: nat)
    requires DescendingDisjoint(errors)
    requires forall i :: 0 <= i < |errors| ==> errors[i].pos + errors[i].len <= |text|
    requires k < |errors|
    ensures var r := Round(text, errors[..k], inputs, false);
      var e := errors[k];
      Slice(r.text, e.pos, e.pos + e.len) == Slice(text, e.pos, e.pos + e.len)
  {
    var e := errors[k];
    var p := e.pos + e.len;
    var r := Round(text, errors[..k], inputs, false);
    RoundPrefix(text, errors[..k], inputs, false, p);
    assert r.text[..p] == text[..p];
    assert r.text[e.pos..p] == r.text[..p][e.pos..];
    assert text[e.pos..p] == text[..p][e.pos..];
  }

  /** `n` answers `s`. */
  function Skips(n: nat): (r: seq<string>)
    ensures |r| == n && forall i :: 0 <= i < n ==> r[i] == "s"
  {
    if n == 0 then [] else ["s"] + Skips(n - 1)
  }

  /** One more `s` in front of the answers. */
  lemma SkipsCons(n: nat, rest: seq<string>)
    ensures Skips(n + 1) + rest == ["s"] + (Skips(n) + rest)
  {
  }

  /** A round over non-empty errors is the first step followed, if that
      step ends normally, by the round over the rest. */
  lemma RoundByAfterStep(step: (string, ErrorSpan, seq<string>, bool) -> RoundResult,
                         text: string, errors: seq<ErrorSpan>, inputs: seq<string>, changed: bool)
    requires errors != []
    ensures var r := step(text, errors[0], inputs, changed);
      RoundBy(step, text, errors, inputs, changed) ==
        if r.status != Running then r else RoundBy(step, r.text, errors[1..], r.inputs, r.changed)
  {
  }

  // ---- answering `s` to every error, as written ----

  /** The total length of the spans. */
  function SpanTotal(errors: seq<ErrorSpan>): nat {
    if errors == [] then 0 else errors[0].len + SpanTotal(errors[1..])
  }

  /** A step for which the answer `s` applies the empty correction and
      counts as a change. */
  ghost predicate DeletesOnS(step: (string, ErrorSpan, seq<string>, bool) -> RoundResult) {
    forall t, e, r, ch :: step(t, e, ["s"] + r, ch) == RoundResult(ApplyCorrection(t, e, ""), r, true, Running)
  }

  /** The step as written is such a step. */
  lemma StepDeletesOnS()
    ensures DeletesOnS(Step)
  {
    forall t, e, r, ch ensures Step(t, e, ["s"] + r, ch) == RoundResult(ApplyCorrection(t, e, ""), r, true, Running) {
      SkipAsWrittenStep(t, e, r, ch);
    }
  }

  /** With such a step, answering `s` to every error of a round runs through
      the whole round and records a change as soon as there is one error. */
  lemma {:induction false} RoundByDeletes(step: (string, ErrorSpan, seq<string>, bool) -> RoundResult,
                                          text: string, errors: seq<ErrorSpan>, rest: seq<string>, changed: bool)
    requires DeletesOnS(step)
    ensures var r := RoundBy(step, text, errors, Skips(|errors|) + rest, changed);
      r.inputs == rest && r.status == Running && r.changed == (changed || errors != [])
    decreases |errors|
  {
    if errors != [] {
      var tail := Skips(|errors| - 1) + rest;
      var text' := ApplyCorrection(text, errors[0], "");
      SkipsCons(|errors| - 1, rest);
      assert step(text, errors[0], ["s"] + tail, changed) == RoundResult(text', tail, true, Running);
      RoundByAfterStep(step, text, errors, ["s"] + tail, changed);
      assert RoundBy(step, text, errors, Skips(|errors|) + rest, changed) == RoundBy(step, text', errors[1..], tail, true);
      RoundByDeletes(step, text', errors[1..], rest, true);
    } else {
      assert Skips(0) + rest == rest;
    }
  }

  /** As written, answering `s` to every error of a round runs through the
      whole round and records a change as soon as there is one error. */
  lemma RoundSkipsAsWritten(text: string, errors: seq<ErrorSpan>, rest: seq<string>, changed: bool)
    ensures var r := Round(text, errors, Skips(|errors|) + rest, changed);
      r.inputs == rest && r.status == Running && r.changed == (changed || errors != [])
  {
    StepDeletesOnS();
    RoundByDeletes(Step, text, errors, rest, changed);
  }

  /** Non-overlapping spans by descending position stay so without the
      first, and fit in a text that lost only the first span. */
  lemma DisjointTail(errors: seq<ErrorSpan>, n: nat)
    requires errors != [] && DescendingDisjoint(errors)
    requires n >= errors[0].pos
    ensures DescendingDisjoint(errors[1..])
    ensures forall i :: 0 <= i < |errors[1..]| ==> errors[1..][i].pos + errors[1..][i].len <= n
  {
    forall i | 0 <= i < |errors[1..]| ensures errors[1..][i].pos + errors[1..][i].len <= n {
      assert errors[1..][i] == errors[i + 1];
    }
    forall i, j | 0 <= i < j < |errors[1..]|
      ensures errors[1..][j].pos + errors[1..][j].len <= errors[1..][i].pos
    {
      assert errors[1..][i] == errors[i + 1] && errors[1..][j] == errors[j + 1];
    }
  }

  /** With such a step, answering `s` to every one of non-overlapping spans
      inside the text taken by descending position deletes them all. */
  lemma {:induction false} RoundByDeletesAll(step: (string, ErrorSpan, seq<string>, bool) -> RoundResult,
                                             text: string, errors: seq<ErrorSpan>, rest: seq<string>, changed: bool)
    requires DeletesOnS(step)
    requires DescendingDisjoint(errors)
    requires forall i :: 0 <= i < |errors| ==> errors[i].pos + errors[i].len <= |text|
    ensures |RoundBy(step, text, errors, Skips(|errors|) + rest, changed).text| + SpanTotal(errors) == |text|
    decreases |errors|
  {
    if errors != [] {
      var e := errors[0];
      var tail := Skips(|errors| - 1) + rest;
      SkipsCons(|errors| - 1, rest);
      var text' := ApplyCorrection(text, e, "");
      assert step(text, e, ["s"] + tail, changed) == RoundResult(text', tail, true, Running);
      ApplyEmpty(text, e);
      assert |text'| == |text| - e.len;
      DisjointTail(errors, |text'|);
      RoundByDeletesAll(step, text', errors[1..], rest, true);
    }
  }

  /** As written, answering `s` to every one of non-overlapping spans inside
      the text taken by descending position deletes them all: the text
      loses exactly their total length. */
  lemma RoundSkipsDeleteAll(text: string, errors: seq<ErrorSpan>, rest: seq<string>, changed: bool)
    requires DescendingDisjoint(errors)
    requires forall i :: 0 <= i < |errors| ==> errors[i].pos + errors[i].len <= |text|
    ensures |Round(text, errors, Skips(|errors|) + rest, changed).text| + SpanTotal(errors) == |text|
  {
    StepDeletesOnS();
    RoundByDeletesAll(Step, text, errors, rest, changed);
  }

  /** A block whose first round ends normally with a change goes on with
      the next reply, the changed text and the remaining input. */
  lemma CheckedByNext(step: (string, ErrorSpan, seq<string>, bool) -> RoundResult,
                      text: string, errors: seq<ErrorSpan>, later: seq<seq<ErrorSpan>>, inputs: seq<string>)
    requires errors != []
    ensures var r := RoundBy(step, text, ByPosDesc(errors), inputs, false);
      r.status == Running && r.changed ==>
        CheckedBy(step, text, [errors] + later, inputs) == CheckedBy(step, r.text, later, r.inputs)
  {
    assert ([errors] + later)[0] == errors && ([errors] + later)[1..] == later;
  }

  /** As written, a block whose first reported errors are all answered `s`
      has its round run to the end with a change recorded, so the service
      is asked again about the changed text. */
  lemma BlockSkipsAsWritten(block: string, errors: seq<ErrorSpan>, later: seq<seq<ErrorSpan>>, rest: seq<string>)
    requires errors != []
    ensures var r := Round(block, ByPosDesc(errors), Skips(|errors|) + rest, false);
      r.status == Running && r.changed && r.inputs == rest &&
      Checked(block, [errors] + later, Skips(|errors|) + rest) == Checked(r.text, later, rest)
  {
    var sorted := ByPosDesc(errors);
    assert |sorted| == |errors| by {
      assert |multiset(sorted)| == |multiset(errors)|;
    }
    RoundSkipsAsWritten(block, sorted, rest, false);
    CheckedByNext(Step, block, errors, later, Skips(|errors|) + rest);
  }

  // ---- answering `s` to every error, as intended ----

  /** Skipping every error of a round leaves the text, and the round's
      "changed" flag, as they were. */
  lemma {:induction false} RoundAllSkipped(text: string, errors: seq<ErrorSpan>, rest: seq<string>, changed: bool)
    ensures RoundFixed(text, errors, Skips(|errors|) + rest, changed) == RoundResult(text, rest, changed, Running)
    decreases |errors|
  {
    if errors != [] {
      var tail := Skips(|errors| - 1) + rest;
      SkipsCons(|errors| - 1, rest);
      RoundSkipFirst(text, errors, tail, changed);
      RoundAllSkipped(text, errors[1..], rest, changed);
    } else {
      assert Skips(0) + rest == rest;
    }
  }

  /** Answering `s` to the first error of a round moves on to the rest of
      the errors with the text unchanged. */
  lemma RoundSkipFirst(text: string, errors: seq<ErrorSpan>, rest: seq<string>, changed: bool)
    requires errors != []
    ensures RoundFixed(text, errors, ["s"] + rest, changed) == RoundFixed(text, errors[1..], rest, changed)
  {
    SkipKeepsText(text, errors[0], rest, changed);
    RoundByAfterStep(StepFixed, text, errors, ["s"] + rest, changed);
  }

  /** A block whose first reported errors are all skipped comes back
      unchanged, and no further round is asked for. */
  lemma BlockAllSkipped(block: string, errors: seq<ErrorSpan>, later: seq<seq<ErrorSpan>>, rest: seq<string>)
    ensures CheckedFixed(block, [errors] + later, Skips(|errors|) + rest) == BlockResult(block, Running)
  {
    if errors != [] {
      RoundAllSkipped(block, ByPosDesc(errors), rest, false);
    }
  }
}
