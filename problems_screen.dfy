/** The problem list screen: a colour per difficulty, descriptions cut to a maximum
    length unless expanded, and an expand button on long descriptions. */
module ProblemsScreen {
  import opened Text
  import opened Js

  /** `toLowerCase` and `toUpperCase` on ASCII letters; other characters are kept. */
  function LowerChar(c: char): char {
    if 'A' <= c <= 'Z' then (c as int + 32) as char else c
  }

  function UpperChar(c: char): char {
    if 'a' <= c <= 'z' then (c as int - 32) as char else c
  }

  function ToLower(s: string): (r: string)
    ensures |r| == |s| && forall i :: 0 <= i < |s| ==> r[i] == LowerChar(s[i])
  {
    if s == [] then [] else [LowerChar(s[0])] + ToLower(s[1..])
  }

  function ToUpper(s: string): (r: string)
    ensures |r| == |s| && forall i :: 0 <= i < |s| ==> r[i] == UpperChar(s[i])
  {
    if s == [] then [] else [UpperChar(s[0])] + ToUpper(s[1..])
  }

  /** The `switch` of `getDifficultyColor`, on the lower-cased difficulty. */
  function LowerCaseColor(d: string): string {
    if d == "easy" then "#22c55e"
    else if d == "medium" then "#eab308"
    else if d == "hard" then "#ef4444"
    else "#6b7280"
  }

  /** `getDifficultyColor`. */
  function DifficultyColor(difficulty: string): string {
    LowerCaseColor(ToLower(difficulty))
  }

  /** Upper-casing or lower-casing first does not change the lower-cased text. */
  lemma LowerAbsorbsCase(s: string)
    ensures ToLower(ToUpper(s)) == ToLower(s) && ToLower(ToLower(s)) == ToLower(s)
  {
    var u, l := ToUpper(s), ToLower(s);
    assert forall i :: 0 <= i < |s| ==> LowerChar(u[i]) == LowerChar(s[i]) && LowerChar(l[i]) == LowerChar(s[i]);
  }

  /** The colour ignores letter case. */
  lemma DifficultyColorIgnoresCase(difficulty: string)
    ensures DifficultyColor(ToUpper(difficulty)) == DifficultyColor(difficulty)
    ensures DifficultyColor(ToLower(difficulty)) == DifficultyColor(difficulty)
  {
    LowerAbsorbsCase(difficulty);
  }

  /** Easy problems are green, medium ones yellow, hard ones red, in either case. */
  lemma EasyIsGreen()
    ensures DifficultyColor("easy") == "#22c55e" && DifficultyColor("EASY") == "#22c55e"
  {
    assert ToLower("easy") == "easy";
    assert ToUpper("easy") == "EASY";
    DifficultyColorIgnoresCase("easy");
  }

  lemma MediumIsYellow()
    ensures DifficultyColor("medium") == "#eab308" && DifficultyColor("Medium") == "#eab308"
  {
    assert ToLower("medium") == "medium";
    assert ToLower("Medium") == "medium";
  }

  lemma HardIsRed()
    ensures DifficultyColor("hard") == "#ef4444" && DifficultyColor("HARD") == "#ef4444"
  {
    assert ToLower("hard") == "hard";
    assert ToUpper("hard") == "HARD";
    DifficultyColorIgnoresCase("hard");
  }

  /** Every difficulty but the three known ones is shown in gray. */
  lemma UnknownDifficultyIsGray(difficulty: string)
    requires ToLower(difficulty) != "easy" && ToLower(difficulty) != "medium" && ToLower(difficulty) != "hard"
    ensures DifficultyColor(difficulty) == "#6b7280"
  {
  }

  /** `s.substring(start, end)`: both ends clamped to `[0, |s|]`, swapped when reversed. */
  function Substring(s: string, start: int, end: int): (r: string)
    ensures |r| <= |s|
    ensures 0 <= start <= end <= |s| ==> r == s[start..end]
    ensures 0 <= end <= start <= |s| ==> r == s[end..start]
    ensures start <= 0 && |s| <= end ==> r == s
    ensures exists i, j :: 0 <= i <= j <= |s| && r == s[i..j]
  {
    var a := if start < 0 then 0 else if start > |s| then |s| else start;
    var b := if end < 0 then 0 else if end > |s| then |s| else end;
    if a <= b then s[a..b] else s[b..a]
  }

  const DefaultMaxLength := 150

  /** `getDisplayDescription`. */
  function DisplayDescription(description: string, expanded: set<int>, problemId: int, maxLength: int): string {
    var isExpanded := problemId in expanded;
    var needsTruncation := |description| > maxLength;
    if isExpanded || !needsTruncation then description
    else Substring(description, 0, maxLength) + "..."
  }

  /** The description is shown whole when expanded or short enough; otherwise its first
      `maxLength` characters are shown followed by "...". */
  lemma DisplayDescriptionShape(description: string, expanded: set<int>, problemId: int, maxLength: int)
    ensures problemId in expanded || |description| <= maxLength ==>
      DisplayDescription(description, expanded, problemId, maxLength) == description
    ensures problemId !in expanded && 0 <= maxLength < |description| ==>
      && DisplayDescription(description, expanded, problemId, maxLength) == description[..maxLength] + "..."
      && |DisplayDescription(description, expanded, problemId, maxLength)| == maxLength + 3
    ensures problemId !in expanded && maxLength < 0 ==>
      DisplayDescription(description, expanded, problemId, maxLength) == "..."
  {
  }

  /** The card shows an expand button when the description is longer than 150 characters. */
  predicate ExpandButtonShown(description: string) {
    |description| > 150
  }

  /** A card without an expand button always shows its whole description, and a card with
      one shows the cut description until it is expanded. */
  lemma ButtonMatchesTruncation(description: string, expanded: set<int>, problemId: int)
    ensures !ExpandButtonShown(description) ==>
      DisplayDescription(description, expanded, problemId, DefaultMaxLength) == description
    ensures ExpandButtonShown(description) && problemId !in expanded ==>
      DisplayDescription(description, expanded, problemId, DefaultMaxLength) == description[..150] + "..."
    ensures ExpandButtonShown(description) && problemId in Toggle(expanded, problemId) ==>
      DisplayDescription(description, Toggle(expanded, problemId), problemId, DefaultMaxLength) == description
  {
  }
}
