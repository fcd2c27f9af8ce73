/**
 The navigation alphabet of AtoZ.php: `get_post_type_alpha_filters` builds the links
 "all", "#" and "a".."z", and `post_type_alpha_filters` marks the current one and labels
 each link.

 A link is the archive root together with the `alpha_filter` value `add_query_arg` would
 put on it; URL building and HTML are not modelled.
 */
module AtoZNav {
  import opened Optional
  import opened Php
  import opened AlphaFilter

  /** A link to the archive root, carrying an `alpha_filter` value or none. */
  datatype Link = Link(root: string, alphaFilter: Option<string>)

  /** One entry of the link array: its key (the title) and its link. */
  datatype NavEntry = NavEntry(title: string, link: Link)

  /** The array `get_post_type_alpha_filters` returns: the `current` key, then the links. */
  datatype AlphaFilters = AlphaFilters(current: string, entries: seq<NavEntry>)

  /** The k-th letter of `range('a', 'z')`. */
  function LetterAt(k: nat): LowerLetter
    requires k < 26
  {
    ('a' as int + k) as char
  }

  /** The link of the k-th letter: keyed by the letter and filtering on it. */
  function LetterEntry(root: string, k: nat): NavEntry
    requires k < 26
  {
    NavEntry([LetterAt(k)], Link(root, Some([LetterAt(k)])))
  }

  /** The 28 links in order: "all" (the bare root), "#" (`'sym'`), then one per letter. */
  predicate IsNavigation(entries: seq<NavEntry>, root: string) {
    && |entries| == 28
    && entries[0] == NavEntry("all", Link(root, None))
    && entries[1] == NavEntry("#", Link(root, Some(Sym)))
    && forall i :: 2 <= i < 28 ==> entries[i] == LetterEntry(root, i - 2)
  }

  /**
   `get_post_type_alpha_filters`: nothing for a post type without alpha_sort support,
   otherwise the query's current `alpha_filter` and the 28 links under `root` (the post
   type's archive link).
   */
  method GetPostTypeAlphaFilters(supports: string -> bool, postType: string, root: string, current: string)
    returns (r: Option<AlphaFilters>)
    ensures r.None? <==> !supports(postType)
    ensures r.Some? ==> r.value.current == current && IsNavigation(r.value.entries, root)
  {
    if !supports(postType) {
      return None;
    }
    var entries := [NavEntry("all", Link(root, None)), NavEntry("#", Link(root, Some(Sym)))];
    var k := 0;
    while k < 26
      invariant 0 <= k <= 26
      invariant |entries| == k + 2
      invariant entries[0] == NavEntry("all", Link(root, None))
      invariant entries[1] == NavEntry("#", Link(root, Some(Sym)))
      invariant forall i :: 2 <= i < k + 2 ==> entries[i] == LetterEntry(root, i - 2)
    {
      entries := entries + [LetterEntry(root, k)];
      k := k + 1;
    }
    return Some(AlphaFilters(current, entries));
  }

  /** The `alpha_filter` value a link carries; the bare root carries none, read as `''`. */
  function LinkValue(l: Link): string {
    l.alphaFilter.GetOr("")
  }

  /** Every link carries a normalised value, and distinct links carry distinct values. */
  lemma NavigationValuesCanonical(entries: seq<NavEntry>, root: string, i: nat, j: nat)
    requires IsNavigation(entries, root)
    requires i < 28 && j < 28
    ensures Normalise(LinkValue(entries[i].link)) == LinkValue(entries[i].link)
    ensures LinkValue(entries[i].link) == LinkValue(entries[j].link) ==> i == j
  {
    var v := LinkValue(entries[i].link);
    assert IsCanonical(v);
    CanonicalIsFixedPoint(v);
    if 2 <= i && 2 <= j && i != j {
      assert LinkValue(entries[i].link)[0] != LinkValue(entries[j].link)[0];
    }
  }

  /** Line 177: an empty `current` counts as no selection. */
  function Selected(current: string): (sel: Option<string>)
    ensures sel.None? <==> current == "" || current == "0"
    ensures sel.Some? ==> sel.value == current
  {
    if EmptyString(current) then None else Some(current)
  }

  /** The `match` of AtoZ.php:186-190 deciding whether the entry titled `title` is current. */
  function IsCurrent(title: string, selected: Option<string>): (b: bool)
    ensures title == "all" ==> (b <==> selected.None?)
    ensures title == "#" ==> (b <==> selected == Some(Sym))
    ensures IsSingleLetter(title) ==> (b <==> selected == Some(title))
    ensures b && selected.Some? ==> title != "all"
  {
    if title == "" || title == "all" then selected.None?
    else if title == "#" then selected == Some(Sym)
    else selected == Some(title)
  }

  /**
   At most one link is ever current, and one is exactly when `current` is empty or a
   normalised value: "all" for no selection, "#" for `'sym'`, the letter's own link otherwise.
   */
  lemma ExactlyOneCurrent(entries: seq<NavEntry>, root: string, current: string)
    requires IsNavigation(entries, root)
    ensures forall i, j :: 0 <= i < j < |entries| && IsCurrent(entries[i].title, Selected(current))
              ==> !IsCurrent(entries[j].title, Selected(current))
    ensures (exists i :: 0 <= i < |entries| && IsCurrent(entries[i].title, Selected(current))) <==>
              EmptyString(current) || IsCanonical(current)
    ensures EmptyString(current) ==> IsCurrent(entries[0].title, Selected(current))
    ensures current == Sym ==> IsCurrent(entries[1].title, Selected(current))
    ensures IsSingleLetter(current) ==>
              IsCurrent(entries[current[0] as int - 'a' as int + 2].title, Selected(current))
  {
    var sel := Selected(current);
    forall i, j | 0 <= i < j < |entries| && IsCurrent(entries[i].title, sel)
      ensures !IsCurrent(entries[j].title, sel)
    {
      if 2 <= i {
        assert entries[i].title[0] != entries[j].title[0];
      }
    }
    if EmptyString(current) {
      assert IsCurrent(entries[0].title, sel);
    } else if current == Sym {
      assert IsCurrent(entries[1].title, sel);
    } else if IsSingleLetter(current) {
      var k := current[0] as int - 'a' as int;
      assert entries[k + 2].title == current;
      assert IsCurrent(entries[k + 2].title, sel);
    } else {
      forall i | 0 <= i < |entries|
        ensures !IsCurrent(entries[i].title, sel)
      {
        if 2 <= i {
          assert IsSingleLetter(entries[i].title);
        }
      }
    }
  }

  /**
   Following a link round-trips: its value, normalised by `set_query_var` on the next
   request, marks that same link as current and no other.
   */
  lemma FollowedLinkIsCurrent(entries: seq<NavEntry>, root: string, i: nat, j: nat)
    requires IsNavigation(entries, root)
    requires i < 28 && j < 28
    ensures IsCurrent(entries[j].title, Selected(Normalise(LinkValue(entries[i].link)))) <==> i == j
  {
    NavigationValuesCanonical(entries, root, i, j);
    var v := LinkValue(entries[i].link);
    if 2 <= i && 2 <= j && i != j {
      assert entries[j].title[0] != v[0];
    }
  }

  /** The label of AtoZ.php:193 as written: every link reads `allTitle` while nothing is selected. */
  function LabelAsWritten(title: string, selected: Option<string>, allTitle: string): (text: string)
    ensures selected.None? ==> text == allTitle
    ensures selected.Some? ==> text == title
  {
    if selected.None? then allTitle else title
  }

  /** With nothing selected, the "#" and letter links are all labelled like the "all" link. */
  lemma LettersLabelledAllAsWritten(entries: seq<NavEntry>, root: string)
    requires IsNavigation(entries, root)
    ensures LabelAsWritten(entries[2].title, Selected(""), "All") == "All"
    ensures entries[2].title == "a"
    ensures LabelAsWritten(entries[2].title, Selected(""), "All") ==
            LabelAsWritten(entries[1].title, Selected(""), "All")
  {
  }

  /** The intended label: `allTitle` for the "all" link, every other link its own key. */
  function Label(title: string, allTitle: string): (text: string)
    ensures title != "all" ==> text == title
    ensures title == "all" ==> text == allTitle
  {
    if title == "all" then allTitle else title
  }

  /**
   Under the intended labelling the 28 labels are pairwise distinct whenever `allTitle`
   is neither "#" nor a single letter, whatever is selected.
   */
  lemma LabelsDistinct(entries: seq<NavEntry>, root: string, allTitle: string, i: nat, j: nat)
    requires IsNavigation(entries, root)
    requires allTitle != "#" && !IsSingleLetter(allTitle)
    requires i < j < 28
    ensures Label(entries[i].title, allTitle) != Label(entries[j].title, allTitle)
  {
    if 2 <= i {
      assert entries[i].title[0] != entries[j].title[0];
    }
  }
}
