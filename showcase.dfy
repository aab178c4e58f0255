/**
 * The showcase page: one saved project at a time, chosen by an index in
 * the address, with previous/next buttons, a redirect for an index out of
 * range, a badge with the formatted content type and the player for that
 * type.
 */
module Showcase {
  import opened Wrappers
  import opened Strings

  const DraftLabel: string := "Draft"

  /** One '-'-separated word with its first character upper-cased. */
  function Capitalize(w: string): (r: string)
    ensures |r| == |w|
    ensures |w| > 0 ==> r[0] == ToUpper(w[0]) && r[1..] == w[1..]
  {
    if w == [] then [] else [ToUpper(w[0])] + w[1..]
  }

  function CapitalizeAll(ws: seq<string>): (r: seq<string>)
    ensures |r| == |ws|
    ensures forall k :: 0 <= k < |ws| ==> r[k] == Capitalize(ws[k])
  {
    seq(|ws|, k requires 0 <= k < |ws| => Capitalize(ws[k]))
  }

  /** The badge text of a content type; a missing or empty type is a draft. */
  function FormatType(t: Option<string>): string {
    if t.None? || t.value == "" then DraftLabel
    else Join(CapitalizeAll(Split(t.value, '-')), ' ')
  }

  /** Upper-casing never turns another character into a space. */
  lemma CapitalizeSpaceFree(w: string)
    requires ' ' !in w
    ensures ' ' !in Capitalize(w)
  {
    if w != [] {
      assert w[0] != ' ';
      assert ToUpper(w[0]) != ' ';
      assert forall c :: c in w[1..] ==> c in w;
    }
  }

  /**
   * For a type without spaces, the badge words are exactly the type's
   * '-'-separated words, each capitalized; in particular there are as many
   * words as segments.
   */
  lemma FormatTypeWords(s: string)
    requires s != "" && ' ' !in s
    ensures Split(FormatType(Some(s)), ' ') == CapitalizeAll(Split(s, '-'))
    ensures |Split(FormatType(Some(s)), ' ')| == |Split(s, '-')|
  {
    var words := Split(s, '-');
    var caps := CapitalizeAll(words);
    forall k | 0 <= k < |caps|
      ensures ' ' !in caps[k]
    {
      SplitPieceIn(s, '-', k);
      CapitalizeSpaceFree(words[k]);
    }
    assert AllFree(caps, ' ');
    SplitJoin(caps, ' ');
  }

  /** Every piece of a split is made of characters of the split string. */
  lemma {:induction false} SplitPieceIn(s: string, sep: char, k: nat)
    requires k < |Split(s, sep)|
    ensures forall c :: c in Split(s, sep)[k] ==> c in s
    decreases |s|
  {
    if s != [] {
      var rest := Split(s[1..], sep);
      if s[0] == sep {
        if k > 0 {
          SplitPieceIn(s[1..], sep, k - 1);
        }
      } else if k == 0 {
        SplitPieceIn(s[1..], sep, 0);
      } else {
        SplitPieceIn(s[1..], sep, k);
      }
    }
  }

  /** A type of two words splits into those two words. */
  lemma SplitTwo(a: string, b: string)
    requires '-' !in a && '-' !in b
    ensures Split(a + ['-'] + b, '-') == [a, b]
  {
    SplitAround(a, b, '-');
    SplitFree(a, '-');
    SplitFree(b, '-');
  }

  lemma SplitExample()
    ensures Split("multiple-choice", '-') == ["multiple", "choice"]
  {
    SplitTwo("multiple", "choice");
    assert "multiple" + ['-'] + "choice" == "multiple-choice";
  }

  lemma CapitalizeExample()
    ensures CapitalizeAll(["multiple", "choice"]) == ["Multiple", "Choice"]
  {
    assert ToUpper('m') == 'M';
    assert ToUpper('c') == 'C';
    assert Capitalize("multiple") == "Multiple";
    assert Capitalize("choice") == "Choice";
  }

  lemma JoinExample()
    ensures Join(["Multiple", "Choice"], ' ') == "Multiple Choice"
  {
    var caps := ["Multiple", "Choice"];
    assert caps[1..] == ["Choice"];
    assert Join(caps, ' ') == "Multiple" + [' '] + "Choice";
  }

  /** The worked example of the badge text, and the draft label. */
  lemma FormatTypeExample()
    ensures FormatType(Some("multiple-choice")) == "Multiple Choice"
    ensures FormatType(None) == "Draft" && FormatType(Some("")) == "Draft"
  {
    SplitExample();
    CapitalizeExample();
    JoinExample();
  }

  // ---------------------------------------------------------------------
  // Players by content type.

  datatype Kind = MultipleChoice | TrueFalse | InteractiveVideo | FlashCard | FillBlank | ImageHotspot

  /** The type tag stored with a project of each kind. */
  function Tag(k: Kind): string {
    match k
    case MultipleChoice => "multiple-choice"
    case TrueFalse => "true-false"
    case InteractiveVideo => "interactive-video"
    case FlashCard => "flash-card"
    case FillBlank => "fill-blank"
    case ImageHotspot => "image-hotspot"
  }

  /** The player a type tag selects; an unknown or missing tag selects none. */
  function PlayerFor(t: Option<string>): Option<Kind> {
    if t == Some("multiple-choice") then Some(MultipleChoice)
    else if t == Some("true-false") then Some(TrueFalse)
    else if t == Some("interactive-video") then Some(InteractiveVideo)
    else if t == Some("flash-card") then Some(FlashCard)
    else if t == Some("fill-blank") then Some(FillBlank)
    else if t == Some("image-hotspot") then Some(ImageHotspot)
    else None
  }

  /** The tags select their own players, and only the tags select a player. */
  lemma PlayerForTag(t: Option<string>, k: Kind)
    ensures PlayerFor(Some(Tag(k))) == Some(k)
    ensures PlayerFor(t) == Some(k) <==> t == Some(Tag(k))
  {
  }

  datatype Project = Project(title: string, contentType: Option<string>, hasContent: bool)

  datatype Page =
    | NoProjects
    | Blank
    | Shown(position: nat, total: nat, badge: string, title: string,
            body: Body, previousEnabled: bool, nextEnabled: bool)

  datatype Body = NoContentYet | Player(kind: Option<Kind>)

  /**
   * What the page renders for an index: the empty state without projects,
   * nothing for an index with no project, otherwise the project's badge,
   * title, player (or the no-content message) and navigation buttons.
   */
  function Render(projects: seq<Project>, index: int): (p: Page)
    ensures |projects| == 0 <==> p == NoProjects
    ensures p.Blank? <==> |projects| > 0 && !(0 <= index < |projects|)
    ensures p.Shown? ==>
              && 0 <= index < |projects|
              && p.position == index + 1 && p.total == |projects|
              && p.badge == FormatType(projects[index].contentType)
              && (p.body == NoContentYet <==> !projects[index].hasContent)
              && (p.body.Player? ==> p.body.kind == PlayerFor(projects[index].contentType))
              && (p.previousEnabled <==> index > 0)
              && (p.nextEnabled <==> index < |projects| - 1)
  {
    if |projects| == 0 then NoProjects
    else if !(0 <= index < |projects|) then Blank
    else
      var project := projects[index];
      Shown(index + 1, |projects|, FormatType(project.contentType), project.title,
            if project.hasContent then Player(PlayerFor(project.contentType)) else NoContentYet,
            index != 0, index != |projects| - 1)
  }

  /** The page's position in the list, as the address holds it. */
  class Navigator {
    const total: nat
    var index: int

    constructor (total: nat, index: int)
      ensures this.total == total && this.index == index
    {
      this.total := total;
      this.index := index;
    }

    predicate InRange()
      reads this
    {
      0 <= index < total
    }

    /** The effect that replaces an out-of-range index with 0 when there are projects. */
    method Redirect()
      modifies this
      ensures total > 0 && !old(InRange()) ==> index == 0
      ensures total == 0 || old(InRange()) ==> index == old(index)
      ensures total > 0 ==> InRange()
    {
      if total > 0 && (index < 0 || index >= total) {
        index := 0;
      }
    }

    /** "Next": one step forward, unless already at (or past) the last project. */
    method Next()
      modifies this
      ensures old(index) < total - 1 ==> index == old(index) + 1
      ensures old(index) >= total - 1 ==> index == old(index)
      ensures old(InRange()) ==> InRange()
    {
      if index < total - 1 {
        index := index + 1;
      }
    }

    /** "Previous": one step back, unless already at (or before) the first project. */
    method Previous()
      modifies this
      ensures old(index) > 0 ==> index == old(index) - 1
      ensures old(index) <= 0 ==> index == old(index)
      ensures old(InRange()) ==> InRange()
    {
      if index > 0 {
        index := index - 1;
      }
    }
  }

  /**
   * On a shown page, each navigation button is enabled exactly when its
   * handler would move: the buttons never offer a step that is a no-op.
   */
  lemma ButtonsMatchHandlers(projects: seq<Project>, index: int)
    requires Render(projects, index).Shown?
    ensures Render(projects, index).previousEnabled <==> index > 0
    ensures Render(projects, index).nextEnabled <==> index < |projects| - 1
    ensures Render(projects, index).nextEnabled ==> Render(projects, index + 1).Shown?
    ensures Render(projects, index).previousEnabled ==> Render(projects, index - 1).Shown?
  {
  }
}
