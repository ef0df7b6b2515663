/** The two visibility controllers of the page: the project filter, which
    shows the project cards of one category, and the page router, which shows
    one section of the single-page layout and remembers it for the session. */
module Navigation {
  import opened Wrappers
  import opened Text

  /** The filter caption that shows every project. */
  const ShowAll: string := "todos"

  /** The section shown when the session has none stored. */
  const DefaultPage: string := "about"

  /** One flag per tag: set exactly where the tag equals the target. */
  function Marks<T(==)>(tags: seq<T>, target: T): (r: seq<bool>)
    ensures |r| == |tags|
    ensures forall i :: 0 <= i < |r| ==> (r[i] <==> tags[i] == target)
  {
    if tags == [] then [] else [tags[0] == target] + Marks(tags[1..], target)
  }

  predicate Distinct<T(==)>(tags: seq<T>) {
    forall i, j :: 0 <= i < j < |tags| ==> tags[i] != tags[j]
  }

  /** With distinct tags at most one flag is set, and exactly one when the
      target is among the tags. */
  lemma MarksSingle<T>(tags: seq<T>, target: T)
    requires Distinct(tags)
    ensures forall i, j :: (0 <= i < |tags| && 0 <= j < |tags| && Marks(tags, target)[i]
              && Marks(tags, target)[j]) ==> i == j
    ensures target in tags ==> exists i :: 0 <= i < |tags| && Marks(tags, target)[i]
  {
    var r := Marks(tags, target);
    if target in tags {
      var i :| 0 <= i < |tags| && tags[i] == target;
      assert r[i];
    }
  }

  /** `filterFunc(selected)`: which project items end up active, given each
      item's `data-category` (absent for an item without the attribute). */
  function Shown(categories: seq<Option<string>>, selected: string): (r: seq<bool>)
    ensures |r| == |categories|
    ensures forall i :: 0 <= i < |r| ==>
      (r[i] <==> selected == ShowAll || categories[i] == Some(selected))
  {
    if selected == ShowAll then seq(|categories|, _ => true) else Marks(categories, Some(selected))
  }

  /** The caption of a button or menu entry is lower-cased before filtering but
      the category is compared as written, so an item whose category holds a
      capital letter is shown only under "todos". */
  lemma CapitalCategoryOnlyUnderShowAll(categories: seq<Option<string>>, caption: string, i: nat, k: nat)
    requires i < |categories| && categories[i].Some?
    requires k < |categories[i].value| && IsUpper(categories[i].value[k])
    ensures Shown(categories, Lower(caption))[i] ==> Lower(caption) == ShowAll
  {
    var lowered := Lower(caption);
    assert Some(lowered) != categories[i] by {
      if |lowered| > k {
        assert !IsUpper(lowered[k]);
      }
    }
  }

  /** The button highlight after a click on button `b`: the previously clicked
      button loses the highlight, then `b` gets it. */
  function AfterClick(active: seq<bool>, last: Option<nat>, b: nat): (r: seq<bool>)
    requires b < |active|
    requires last.Some? ==> last.value < |active|
    ensures |r| == |active| && r[b]
    ensures last.Some? && last.value != b ==> !r[last.value]
    ensures forall k :: 0 <= k < |r| && k != b && last != Some(k) ==> r[k] == active[k]
  {
    (if last.Some? then active[last.value := false] else active)[b := true]
  }

  /** When at most the last clicked button is highlighted, a click leaves
      exactly the clicked button highlighted. */
  lemma ClickKeepsSingleHighlight(active: seq<bool>, last: Option<nat>, b: nat)
    requires b < |active|
    requires last.Some? ==> last.value < |active|
    requires forall k :: 0 <= k < |active| && active[k] ==> last == Some(k)
    ensures forall k :: 0 <= k < |active| ==> (AfterClick(active, last, b)[k] <==> k == b)
  {
  }

  /** The project filter: the items and their activity, the filter buttons
      and their highlight, `lastClickedBtn`, and the text of the element that
      shows the current choice (absent when the page has no such element). */
  class ProjectFilter {
    const categories: seq<Option<string>>
    const buttonLabels: seq<string>
    var itemActive: seq<bool>
    var buttonActive: seq<bool>
    var lastClicked: Option<nat>
    var choiceText: Option<string>

    ghost predicate Valid()
      reads this
    {
      |itemActive| == |categories| && |buttonActive| == |buttonLabels|
      && (lastClicked.Some? ==> lastClicked.value < |buttonLabels|)
    }

    /** Page load: the markup's state; `lastClickedBtn` starts as the first
        button, or null when there is none. */
    constructor (categories: seq<Option<string>>, itemActive: seq<bool>,
                 buttonLabels: seq<string>, buttonActive: seq<bool>, choiceText: Option<string>)
      requires |itemActive| == |categories| && |buttonActive| == |buttonLabels|
      ensures Valid()
      ensures this.categories == categories && this.itemActive == itemActive
      ensures this.buttonLabels == buttonLabels && this.buttonActive == buttonActive
      ensures this.choiceText == choiceText
      ensures lastClicked == if buttonLabels == [] then None else Some(0)
    {
      this.categories := categories;
      this.itemActive := itemActive;
      this.buttonLabels := buttonLabels;
      this.buttonActive := buttonActive;
      this.choiceText := choiceText;
      lastClicked := if buttonLabels == [] then None else Some(0);
    }

    /** `filterFunc`: each item is made active or inactive in turn. */
    method Filter(selected: string)
      requires Valid()
      modifies this`itemActive
      ensures Valid()
      ensures itemActive == Shown(categories, selected)
    {
      var i := 0;
      while i < |categories|
        invariant 0 <= i <= |categories| && |itemActive| == |categories|
        invariant forall k :: 0 <= k < i ==>
          (itemActive[k] <==> selected == ShowAll || categories[k] == Some(selected))
      {
        itemActive := itemActive[i := selected == ShowAll || categories[i] == Some(selected)];
        i := i + 1;
      }
    }

    /** A click on filter button `b`: its lower-cased caption filters the items,
        its caption becomes the shown choice, and the highlight moves to it. */
    method ClickButton(b: nat)
      requires Valid() && b < |buttonLabels|
      modifies this`itemActive, this`buttonActive, this`lastClicked, this`choiceText
      ensures Valid()
      ensures itemActive == Shown(categories, Lower(buttonLabels[b]))
      ensures choiceText == if old(choiceText).Some? then Some(buttonLabels[b]) else None
      ensures buttonActive == AfterClick(old(buttonActive), old(lastClicked), b)
      ensures lastClicked == Some(b)
    {
      var value := Lower(buttonLabels[b]);
      if choiceText.Some? {
        choiceText := Some(buttonLabels[b]);
      }
      Filter(value);
      if lastClicked.Some? {
        buttonActive := buttonActive[lastClicked.value := false];
      }
      buttonActive := buttonActive[b := true];
      lastClicked := Some(b);
    }

    /** A click on an entry of the drop-down list: the same filtering by the
        lower-cased caption; the buttons and `lastClickedBtn` are left alone. */
    method ChooseEntry(caption: string)
      requires Valid()
      modifies this`itemActive, this`choiceText
      ensures Valid()
      ensures itemActive == Shown(categories, Lower(caption))
      ensures choiceText == if old(choiceText).Some? then Some(caption) else None
    {
      if choiceText.Some? {
        choiceText := Some(caption);
      }
      Filter(Lower(caption));
    }
  }

  /** The page shown on load: the stored one, unless it is absent or empty. */
  function StartPage(stored: Option<string>): (p: string)
    ensures p != []
    ensures stored.Some? && stored.value != [] ==> p == stored.value
    ensures stored.None? || stored.value == [] ==> p == DefaultPage
  {
    if stored.Some? && stored.value != [] then stored.value else DefaultPage
  }

  /** The page a navigation link leads to: its `data-page-target`, or else
      its trimmed, lower-cased text. */
  function LinkTarget(target: Option<string>, text: string): (p: string)
    ensures target.Some? && target.value != [] ==> p == target.value
    ensures target.None? || target.value == [] ==> p == Lower(Trim(text))
  {
    if target.Some? && target.value != [] then target.value else Lower(Trim(text))
  }

  /** The page router: the sections with their `data-page`, the navigation
      links with their `data-page-target` and text, which of each are
      active, and the session-stored `activePage`. */
  class PageRouter {
    const pageTags: seq<string>
    const linkTargets: seq<Option<string>>
    const linkTexts: seq<string>
    var pageActive: seq<bool>
    var linkActive: seq<bool>
    var stored: Option<string>

    ghost predicate Valid()
      reads this
    {
      |pageActive| == |pageTags| && |linkActive| == |linkTargets| && |linkTexts| == |linkTargets|
    }

    constructor (pageTags: seq<string>, pageActive: seq<bool>, linkTargets: seq<Option<string>>,
                 linkTexts: seq<string>, linkActive: seq<bool>, stored: Option<string>)
      requires |pageActive| == |pageTags| && |linkActive| == |linkTargets|
      requires |linkTexts| == |linkTargets|
      ensures Valid()
      ensures this.pageTags == pageTags && this.pageActive == pageActive
      ensures this.linkTargets == linkTargets && this.linkTexts == linkTexts
      ensures this.linkActive == linkActive && this.stored == stored
    {
      this.pageTags := pageTags;
      this.pageActive := pageActive;
      this.linkTargets := linkTargets;
      this.linkTexts := linkTexts;
      this.linkActive := linkActive;
      this.stored := stored;
    }

    /** `showPage(page)`: a section or link is active exactly when its tag is
        `page`, and `page` is stored for the session. */
    method ShowPage(page: string)
      requires Valid()
      modifies this`pageActive, this`linkActive, this`stored
      ensures Valid()
      ensures pageActive == Marks(pageTags, page)
      ensures linkActive == Marks(linkTargets, Some(page))
      ensures stored == Some(page)
    {
      var i := 0;
      while i < |pageTags|
        invariant Valid() && 0 <= i <= |pageTags|
        invariant forall k :: 0 <= k < i ==> (pageActive[k] <==> pageTags[k] == page)
      {
        pageActive := pageActive[i := pageTags[i] == page];
        i := i + 1;
      }
      var j := 0;
      while j < |linkTargets|
        invariant Valid() && 0 <= j <= |linkTargets|
        invariant pageActive == Marks(pageTags, page)
        invariant forall k :: 0 <= k < j ==> (linkActive[k] <==> linkTargets[k] == Some(page))
      {
        linkActive := linkActive[j := linkTargets[j] == Some(page)];
        j := j + 1;
      }
      stored := Some(page);
    }

    /** `DOMContentLoaded`: the stored page, or "about", is shown. */
    method Load()
      requires Valid()
      modifies this`pageActive, this`linkActive, this`stored
      ensures Valid()
      ensures pageActive == Marks(pageTags, StartPage(old(stored)))
      ensures linkActive == Marks(linkTargets, Some(StartPage(old(stored))))
      ensures stored == Some(StartPage(old(stored)))
    {
      ShowPage(StartPage(stored));
    }

    /** A click on navigation link `i`. */
    method ClickLink(i: nat)
      requires Valid() && i < |linkTargets|
      modifies this`pageActive, this`linkActive, this`stored
      ensures Valid()
      ensures pageActive == Marks(pageTags, LinkTarget(linkTargets[i], linkTexts[i]))
      ensures linkActive == Marks(linkTargets, Some(LinkTarget(linkTargets[i], linkTexts[i])))
      ensures stored == Some(LinkTarget(linkTargets[i], linkTexts[i]))
    {
      ShowPage(LinkTarget(linkTargets[i], linkTexts[i]));
    }
  }

  /** A reload shows the page that was last shown, except that an empty page
      name falls back to "about". */
  lemma ReloadRestores(page: string)
    ensures StartPage(Some(page)) == if page == [] then DefaultPage else page
  {
  }

  /** A link with a `data-page-target` leads to the section tagged with it:
      with distinct section tags, exactly that section is active afterwards. */
  lemma LinkShowsItsSection(pageTags: seq<string>, target: string, text: string)
    requires Distinct(pageTags) && target != [] && target in pageTags
    ensures var shown := Marks(pageTags, LinkTarget(Some(target), text));
      exists i :: 0 <= i < |pageTags| && shown[i] && pageTags[i] == target
        && forall j :: 0 <= j < |pageTags| && shown[j] ==> j == i
  {
    MarksSingle(pageTags, target);
    var i :| 0 <= i < |pageTags| && pageTags[i] == target;
    assert Marks(pageTags, target)[i];
  }
}
