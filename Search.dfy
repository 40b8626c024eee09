/**
 * The search box's placeholder: while the box holds no query it shows a
 * grey hint, focusing it clears the hint, leaving it empty puts the hint
 * back, and the query read from it never is the hint. Focus also thickens
 * the frame's highlight to 2 in the accent colour; blur sets it back to 1 in
 * the border colour.
 */
module Search {
  import opened Palette

  const Placeholder := "Search patients, appointments\U{2026}"

  /** The frame's `highlightbackground` and `highlightthickness`. */
  datatype Highlight = Highlight(color: string, thickness: nat)

  const Focused := Highlight(Accent, 2)
  const Blurred := Highlight(Border, 1)

  /** The entry text after a focus-in: the hint is cleared, anything else is kept. */
  function AfterFocusIn(text: string): (r: string)
    ensures r != Placeholder
    ensures text != Placeholder ==> r == text
    ensures text == Placeholder ==> r == []
  {
    if text == Placeholder then [] else text
  }

  /** The entry text after a focus-out: an empty box shows the hint again, anything else is kept. */
  function AfterFocusOut(text: string): (r: string)
    ensures r != []
    ensures text != [] ==> r == text
    ensures text == [] ==> r == Placeholder
  {
    if text == [] then Placeholder else text
  }

  /** `get_search_query`: the text, unless it is the hint, which reads as no query. */
  function QueryOf(text: string): (q: string)
    ensures q != Placeholder
    ensures q == [] <==> text == [] || text == Placeholder
    ensures q != [] ==> q == text
  {
    if text == Placeholder then [] else text
  }

  /** The entry's text colour after a focus-in or focus-out handler leaves `text` behind. */
  function ColourAfterFocusIn(text: string, fg: string): string {
    if text == Placeholder then TextColor else fg
  }

  function ColourAfterFocusOut(text: string, fg: string): string {
    if text == [] then Muted else fg
  }

  /** Running either handler twice is running it once, so the doubled `<FocusIn>`/`<FocusOut>` bindings are harmless. */
  lemma HandlersIdempotent(text: string, fg: string)
    ensures AfterFocusIn(AfterFocusIn(text)) == AfterFocusIn(text)
    ensures ColourAfterFocusIn(AfterFocusIn(text), ColourAfterFocusIn(text, fg)) == ColourAfterFocusIn(text, fg)
    ensures AfterFocusOut(AfterFocusOut(text)) == AfterFocusOut(text)
    ensures ColourAfterFocusOut(AfterFocusOut(text), ColourAfterFocusOut(text, fg)) == ColourAfterFocusOut(text, fg)
  {
  }

  /**
   * A focus-in followed by a focus-out gives back what the box held: a
   * typed query survives, and the hint comes back as the hint.
   */
  lemma FocusCycle(text: string)
    ensures text != [] ==> AfterFocusOut(AfterFocusIn(text)) == text
    ensures text == [] ==> AfterFocusOut(AfterFocusIn(text)) == Placeholder
  {
  }

  /** Focus changes never change the query the box reports. */
  lemma FocusKeepsQuery(text: string)
    ensures QueryOf(AfterFocusIn(text)) == QueryOf(text)
    ensures QueryOf(AfterFocusOut(text)) == QueryOf(text)
  {
  }

  /** The `TopBar` search entry of the final app, with its frame's highlight. */
  class TopBarSearch {
    var text: string
    var fg: string
    var highlight: Highlight
    var focused: bool

    /** The frame is highlighted exactly while the entry has focus. */
    ghost predicate Valid()
      reads this
    {
      highlight == (if focused then Focused else Blurred)
    }

    /** As built: the hint in grey, thin border-coloured frame, no focus. */
    constructor ()
      ensures Valid() && text == Placeholder && fg == Muted && !focused
      ensures Query() == []
    {
      text := Placeholder;
      fg := Muted;
      highlight := Blurred;
      focused := false;
    }

    /**
     * `<FocusIn>`: the first binding runs `_search_focus_in`; the second,
     * added with `add='+'`, highlights the frame and runs it again.
     */
    method FocusIn()
      requires Valid()
      modifies this
      ensures Valid() && focused
      ensures text == AfterFocusIn(old(text)) && fg == ColourAfterFocusIn(old(text), old(fg))
      ensures Query() == old(Query())
    {
      SearchFocusIn();
      highlight := Focused;
      focused := true;
      SearchFocusIn();
      HandlersIdempotent(old(text), old(fg));
      FocusKeepsQuery(old(text));
    }

    /** `<FocusOut>`: as `<FocusIn>`, with `_search_focus_out` and the thin frame. */
    method FocusOut()
      requires Valid()
      modifies this
      ensures Valid() && !focused
      ensures text == AfterFocusOut(old(text)) && fg == ColourAfterFocusOut(old(text), old(fg))
      ensures text != [] && Query() == old(Query())
    {
      SearchFocusOut();
      highlight := Blurred;
      focused := false;
      SearchFocusOut();
      HandlersIdempotent(old(text), old(fg));
      FocusKeepsQuery(old(text));
    }

    /** `_search_focus_in`: clear the hint and switch to the text colour. */
    method SearchFocusIn()
      modifies this`text, this`fg
      ensures text == AfterFocusIn(old(text)) && fg == ColourAfterFocusIn(old(text), old(fg))
    {
      if text == Placeholder {
        text := [];
        fg := TextColor;
      }
    }

    /** `_search_focus_out`: an empty box gets the hint back, in grey. */
    method SearchFocusOut()
      modifies this`text, this`fg
      ensures text == AfterFocusOut(old(text)) && fg == ColourAfterFocusOut(old(text), old(fg))
    {
      if text == [] {
        text := Placeholder;
        fg := Muted;
      }
    }

    /** The user types: the entry's contents become `typed`. */
    method Edit(typed: string)
      requires Valid()
      modifies this`text
      ensures Valid() && text == typed
    {
      text := typed;
    }

    /** `get_search_query` */
    function Query(): (q: string)
      reads this
      ensures q != Placeholder
      ensures q == [] <==> text == [] || text == Placeholder
    {
      QueryOf(text)
    }

    /**
     * `clear_search`: empty the entry and run `_search_focus_out`, which
     * always puts the hint back. The frame's highlight is not touched.
     */
    method ClearSearch()
      requires Valid()
      modifies this`text, this`fg
      ensures Valid() && text == Placeholder && fg == Muted && Query() == []
      ensures highlight == old(highlight) && focused == old(focused)
    {
      text := [];
      SearchFocusOut();
    }
  }

  /** The day-2 search box: the same placeholder rules, and a result label that `<Return>` updates. */
  class DemoSearch {
    var text: string
    var fg: string
    var highlight: Highlight
    var result: string

    /** As built: the hint in grey, thin frame, and the label's greeting. */
    constructor ()
      ensures text == Placeholder && fg == Muted && highlight == Blurred
      ensures result == "Try the search box or buttons above!"
    {
      text := Placeholder;
      fg := Muted;
      highlight := Blurred;
      result := "Try the search box or buttons above!";
    }

    /** `on_focus_in`: clear the hint, then highlight the frame. */
    method FocusIn()
      modifies this`text, this`fg, this`highlight
      ensures text == AfterFocusIn(old(text)) && fg == ColourAfterFocusIn(old(text), old(fg))
      ensures highlight == Focused
    {
      if text == Placeholder {
        text := [];
        fg := TextColor;
      }
      highlight := Focused;
    }

    /** `on_focus_out`: restore the hint in an empty box, then thin the frame. */
    method FocusOut()
      modifies this`text, this`fg, this`highlight
      ensures text == AfterFocusOut(old(text)) && fg == ColourAfterFocusOut(old(text), old(fg))
      ensures highlight == Blurred
    {
      if text == [] {
        text := Placeholder;
        fg := Muted;
      }
      highlight := Blurred;
    }

    method Edit(typed: string)
      modifies this`text
      ensures text == typed
    {
      text := typed;
    }

    /** `on_search`: report the query in the label, unless the box shows the hint. */
    method OnSearch()
      modifies this`result
      ensures text == Placeholder ==> result == old(result)
      ensures text != Placeholder ==> result == SearchingFor(text)
    {
      if text != Placeholder {
        result := SearchingFor(text);
      }
    }
  }

  /** The label text `f'Searching for: "{query}"'`. */
  function SearchingFor(query: string): (s: string)
    ensures |s| == |query| + 17
    ensures s[..16] == "Searching for: \"" && s[16..|s| - 1] == query && s[|s| - 1] == '"'
  {
    "Searching for: \"" + query + "\""
  }

  /** Different queries give different labels, so the label always tells which query ran. */
  lemma SearchingForInjective(a: string, b: string)
    ensures SearchingFor(a) == SearchingFor(b) <==> a == b
  {
    if SearchingFor(a) == SearchingFor(b) {
      assert a == SearchingFor(a)[16..|SearchingFor(a)| - 1];
    }
  }
}
