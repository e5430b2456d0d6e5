/**
 * The yes/no confirmation prompt of the command-line tools
 * (internal/cli/prompt.go). Writing the prompt to the terminal is left out;
 * the line read from standard input is a parameter, `None` when the read fails.
 */
module Prompt {
  import opened Wrappers
  import opened Text

  /** How a typed answer is understood. */
  datatype Answer = Yes | No | Unrecognised

  /** The choice shown after the prompt: the upper-case letter is the default. */
  function Selection(def: bool): (s: string)
    ensures |s| == 3 && s[1] == '/'
    ensures (s[0] == 'Y') == def && (s[2] == 'N') == !def
    ensures LowerChar(s[0]) == 'y' && LowerChar(s[2]) == 'n'
  {
    if def then "Y/n" else "y/N"
  }

  /** The answer a line stands for, after trimming and lower-casing it. */
  function Classify(line: string): (a: Answer)
    ensures a == Yes <==> ToLower(TrimSpace(line)) in {"y", "yes"}
    ensures a == No <==> ToLower(TrimSpace(line)) in {"n", "no"}
  {
    match ToLower(TrimSpace(line))
    case "y" => Yes
    case "yes" => Yes
    case "n" => No
    case "no" => No
    case _ => Unrecognised
  }

  /** `Confirmation(prompt, def)` given the line that was read, if any. */
  function Confirmation(def: bool, line: Option<string>): (r: bool)
    ensures line.None? ==> !r
    ensures line.Some? && Classify(line.value) == Yes ==> r
    ensures line.Some? && Classify(line.value) == No ==> !r
    ensures line.Some? && Classify(line.value) == Unrecognised ==> r == def
  {
    match line
    case None => false
    case Some(text) =>
      match Classify(text)
      case Yes => true
      case No => false
      case Unrecognised => def
  }

  /** An explicit answer wins over the default; anything else, the empty line included, gives the default. */
  lemma ExplicitAnswers(def: bool, line: string)
    ensures ToLower(TrimSpace(line)) in {"y", "yes"} ==> Confirmation(def, Some(line))
    ensures ToLower(TrimSpace(line)) in {"n", "no"} ==> !Confirmation(def, Some(line))
    ensures ToLower(TrimSpace(line)) !in {"y", "yes", "n", "no"} ==> Confirmation(def, Some(line)) == def
    ensures Confirmation(def, Some("")) == def
  {
    assert TrimSpace("") == "";
  }

  /** Leading and trailing white space never changes the answer. */
  lemma PaddingIgnored(def: bool, w1: string, s: string, w2: string)
    requires AllSpace(w1) && AllSpace(w2)
    ensures Confirmation(def, Some(w1 + s + w2)) == Confirmation(def, Some(s))
  {
    TrimSpacePadding(w1, s, w2);
  }

  /** Letter case never changes the answer. */
  lemma CaseIgnored(def: bool, s: string)
    ensures Confirmation(def, Some(ToUpper(s))) == Confirmation(def, Some(s))
  {
    CaseFoldedTrim(s);
  }

  lemma TrimmedSpacedYes()
    ensures TrimSpace(" YES ") == "YES"
  {
    assert AllSpace(" ");
    TrimSpacePadding(" ", "YES", " ");
    assert " " + "YES" + " " == " YES ";
    assert TrimLeft("YES") == "YES";
    assert TrimRight("YES") == "YES";
  }

  lemma SpacedUpperYesClassified()
    ensures Classify(" YES ") == Yes
  {
    TrimmedSpacedYes();
    assert ToLower("YES") == "yes";
  }

  /** " YES " is a yes, whatever the default. */
  lemma SpacedUpperYes(def: bool)
    ensures Confirmation(def, Some(" YES "))
  {
    SpacedUpperYesClassified();
  }

  /**
   * Folding is per character and keeps the long s (U+017F) apart from 's':
   * "yeſ" is no answer and gives the default, as `strings.ToLower` leaves
   * that rune unchanged.
   */
  lemma LongSIsNoAnswer(def: bool)
    ensures Confirmation(def, Some("ye\U{17F}")) == def
  {
    assert TrimLeft("ye\U{17F}") == "ye\U{17F}";
    assert TrimRight("ye\U{17F}") == "ye\U{17F}";
    assert ToLower("ye\U{17F}") == "ye\U{17F}";
  }
}
