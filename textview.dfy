// Model of the text-editing widgets of glv: the TextView line editor, the
// SearchBox completion list, the DropDown first-letter lookup and the digit
// replacement of NumberDialers.

module TextEditing {
  import Options

  // ---------------------------------------------------------------------------
  // Keyboard events

  /** A key as the widgets see it: a character key or one of the named keys. */
  datatype Key = Char(c: char) | Backspace | Delete | Left | Right | Up | Down | Enter | Return | Tab

  datatype Modifiers = Modifiers(ctrl: bool, alt: bool, meta: bool, shift: bool)

  /** `isprint` on the 7-bit range: space through tilde. */
  predicate IsPrintChar(c: char)
  {
    ' ' <= c <= '~'
  }

  predicate IsPrint(k: Key)
  {
    k.Char? && IsPrintChar(k.c)
  }

  /** A character filter: the widget value, the cursor and the typed key decide acceptance. */
  type Filter = (string, int, char) -> bool

  /** `TextView::filterNumeric`: digits and the characters of a decimal literal, whatever the text and position. */
  function FilterNumeric(text: string, pos: int, newChar: char): (accept: bool)
    ensures accept <==> newChar in "0123456789-+e."
  {
    ('0' <= newChar <= '9') || newChar == '-' || newChar == '+' || newChar == 'e' || newChar == '.'
  }

  // ---------------------------------------------------------------------------
  // String editing

  /** How many characters `std::string::erase(start, num)` removes; a negative `num` converts to a huge count. */
  function ErasedCount(size: nat, start: nat, num: int): (n: nat)
    requires start <= size
    ensures 0 <= num && start + num <= size ==> n == num
    ensures (num < 0 || start + num > size) ==> start + n == size
  {
    if num < 0 || start + num > size then size - start else num
  }

  /** `std::string::erase(start, num)`. */
  function Erase(s: string, start: nat, num: int): (r: string)
    requires start <= |s|
    ensures |r| == |s| - ErasedCount(|s|, start, num)
    ensures forall i :: 0 <= i < start ==> r[i] == s[i]
    ensures forall i :: start <= i < |r| ==> r[i] == s[i + ErasedCount(|s|, start, num)]
  {
    s[..start] + s[start + ErasedCount(|s|, start, num)..]
  }

  /** `std::string::insert(pos, 1, c)`. */
  function InsertAt(s: string, pos: nat, c: char): (r: string)
    requires pos <= |s|
    ensures |r| == |s| + 1 && r[pos] == c
    ensures forall i :: 0 <= i < pos ==> r[i] == s[i]
    ensures forall i :: pos < i < |r| ==> r[i] == s[i - 1]
  {
    s[..pos] + [c] + s[pos..]
  }

  /** Erasing the character just inserted gives the original string back. */
  lemma {:induction false} EraseInsert(s: string, pos: nat, c: char)
    requires pos <= |s|
    ensures Erase(InsertAt(s, pos, c), pos, 1) == s
  {
    var t := InsertAt(s, pos, c);
    var r := Erase(t, pos, 1);
    assert ErasedCount(|t|, pos, 1) == 1;
    assert |r| == |s|;
    forall i | 0 <= i < |s|
      ensures r[i] == s[i]
    {
      if i >= pos {
        assert r[i] == t[i + 1];
      }
    }
  }

  /** The lower end of the selection between `pos` and `pos + sel`. */
  function SelectionStart(pos: int, sel: int): int
  {
    if sel < 0 then pos + sel else pos
  }

  function Abs(x: int): nat
  {
    if x < 0 then -x else x
  }

  /** The text once the |sel| characters between `pos` and `pos + sel` are gone. */
  function WithoutSelection(t: string, pos: int, sel: int): (r: string)
    requires 0 <= pos <= |t| && 0 <= pos + sel <= |t|
    ensures |r| == |t| - Abs(sel)
    ensures forall i :: 0 <= i < SelectionStart(pos, sel) ==> r[i] == t[i]
    ensures forall i :: SelectionStart(pos, sel) <= i < |r| ==> r[i] == t[i + Abs(sel)]
  {
    var lo := SelectionStart(pos, sel);
    t[..lo] + t[lo + Abs(sel)..]
  }

  /** Within the text, erasing |sel| characters from the lower end removes exactly the selection. */
  lemma EraseSelection(t: string, pos: int, sel: int)
    requires 0 <= pos <= |t| && 0 <= pos + sel <= |t|
    ensures Erase(t, SelectionStart(pos, sel), Abs(sel)) == WithoutSelection(t, pos, sel)
  {
  }

  function Clamp(x: int, lo: int, hi: int): (r: int)
    requires lo <= hi
    ensures lo <= r <= hi
    ensures lo <= x <= hi ==> r == x
  {
    if x < lo then lo else if x > hi then hi else x
  }

  // ---------------------------------------------------------------------------
  // TextView

  /**
   * A single-line text editor. `text` is the edited string, `value` the
   * widget's data model (`getValue`/`setValue`), `pos` the cursor and `sel`
   * the signed selection: the selected characters lie between `pos` and
   * `pos + sel`.
   */
  class TextView {
    var text: string
    var value: string
    var pos: int
    var sel: int
    var blink: real
    var filter: Options.Option<Filter>

    /** Cursor and selection end both lie within the text. */
    ghost predicate Valid()
      reads this
    {
      0 <= pos <= |text| && 0 <= pos + sel <= |text|
    }

    /** The view shows `s` as text and value, with the cursor at its end, no selection and the blink reset. */
    predicate Shows(s: string)
      reads this
    {
      text == s && value == s && pos == |s| && sel == 0 && blink == 0.0
    }

    /** Nothing of the view has changed. */
    twostate predicate StateKept()
      reads this
    {
      text == old(text) && value == old(value) && pos == old(pos) && sel == old(sel) && blink == old(blink) &&
      filter == old(filter)
    }

    /** An empty editor with no filter and the cursor at 0. */
    constructor()
      ensures Valid()
      ensures text == "" && value == "" && pos == 0 && sel == 0 && blink == 0.0 && filter.None?
    {
      text, value, sel, blink, filter := "", "", 0, 0.0, Options.None;
      pos := 0;
    }

    /**
     * `setValue(v)`: the data model takes `v` and, through `onAssignData`,
     * so does the text; cursor and selection are left as they are.
     */
    method SetValue(v: string)
      modifies this
      ensures value == v && text == v
      ensures pos == old(pos) && sel == old(sel) && blink == old(blink) && filter == old(filter)
    {
      value := v;
      text := v;
    }

    /** `cursorPos(v)`: moves only to a position within the text; always clears the selection and the blink phase. */
    method CursorPos(v: int)
      modifies this
      ensures pos == (if 0 <= v <= |text| then v else old(pos))
      ensures sel == 0 && blink == 0.0
      ensures text == old(text) && value == old(value) && filter == old(filter)
      ensures 0 <= old(pos) <= |text| ==> Valid()
    {
      if v <= |text| && v >= 0 {
        pos := v;
      }
      sel := 0;
      blink := 0.0;
    }

    /** `cursorEnd()`: the cursor goes after the last character. */
    method CursorEnd()
      modifies this
      ensures Valid()
      ensures pos == |text| && sel == 0 && blink == 0.0
      ensures text == old(text) && value == old(value) && filter == old(filter)
    {
      CursorPos(|text|);
    }

    /** `select(v)`: the selection end `pos + v` is clamped into the text. */
    method Select(v: int)
      modifies this
      ensures sel == Clamp(pos + v, 0, |text|) - pos
      ensures 0 <= pos + sel <= |text|
      ensures 0 <= pos + v <= |text| ==> sel == v
      ensures text == old(text) && value == old(value) && pos == old(pos)
      ensures blink == old(blink) && filter == old(filter)
      ensures 0 <= pos <= |text| ==> Valid()
    {
      var nt := |text|;
      var end := pos + v;
      if end < 0 {
        end := 0;
      }
      if end > nt {
        end := nt;
      }
      sel := end - pos;
    }

    /** `selectAll()`: cursor at the end, selection back over the whole text. */
    method SelectAll()
      modifies this
      ensures Valid()
      ensures pos == |text| && sel == -|text| && blink == 0.0
      ensures text == old(text) && value == old(value) && filter == old(filter)
    {
      CursorEnd();
      Select(-|text|);
    }

    /** `deleteText(start, num)`: erase from the text and hand the result to the data model. */
    method DeleteText(start: int, num: int)
      requires 0 <= start <= |text|
      modifies this
      ensures text == Erase(old(text), start, num) && value == text
      ensures pos == old(pos) && sel == old(sel) && blink == old(blink) && filter == old(filter)
    {
      text := Erase(text, start, num);
      value := text;
    }

    /**
     * `deleteSelected()`: the |sel| characters from the lower end of the
     * selection go (`erase` stops at the end of the text), and the cursor
     * lands on the lower end. No selection, no change. The one demand is
     * `erase`'s: the lower end lies within the text.
     */
    method DeleteSelected()
      requires sel != 0 ==> 0 <= SelectionStart(pos, sel) <= |text|
      modifies this
      ensures old(sel) != 0 ==>
                text == Erase(old(text), SelectionStart(old(pos), old(sel)), Abs(old(sel))) &&
                pos == SelectionStart(old(pos), old(sel)) && value == text && blink == 0.0
      ensures old(sel) == 0 ==> text == old(text) && pos == old(pos) && value == old(value) && blink == old(blink)
      ensures sel == 0 && filter == old(filter)
      ensures old(Valid()) ==> Valid() && text == WithoutSelection(old(text), old(pos), old(sel))
    {
      if sel > 0 {
        DeleteText(pos, sel);
        CursorPos(pos);
      } else if sel < 0 {
        DeleteText(pos + sel, -sel);
        CursorPos(pos + sel);
      }
      if old(Valid()) {
        EraseSelection(old(text), old(pos), old(sel));
      }
    }

    /** Ctrl+a selects everything; any other Ctrl key, and any Alt or Meta key, bubbles untouched. */
    twostate predicate ModifierKeyEffect(key: Key, mods: Modifiers, bubble: bool)
      reads this
    {
      && (mods.ctrl && key == Char('a') ==>
            !bubble && text == old(text) && value == old(value) && pos == |text| && sel == -|text| && blink == 0.0)
      && (mods.ctrl && key != Char('a') ==>
            bubble && text == old(text) && value == old(value) && pos == old(pos) && sel == old(sel) &&
            blink == old(blink))
      && (!mods.ctrl && (mods.alt || mods.meta) ==>
            bubble && text == old(text) && pos == old(pos) && sel == old(sel) && value == old(value) &&
            blink == old(blink))
    }

    /** A printable character: the selection goes first, then the filter decides; a rejected key bubbles. */
    twostate predicate PrintKeyEffect(c: char, bubble: bool)
      requires old(Valid())
      reads this
    {
      var lo := SelectionStart(old(pos), old(sel));
      var base := WithoutSelection(old(text), old(pos), old(sel));
      var seen := if old(sel) != 0 then base else old(value);
      var accepted := old(filter).None? || old(filter).value(seen, lo, c);
      && bubble == !accepted
      && (accepted ==> text == InsertAt(base, lo, c) && value == text && pos == lo + 1 && sel == 0)
      && (!accepted ==> text == old(text) && pos == old(pos) && sel == old(sel) && value == seen)
      && (accepted || old(sel) != 0 ==> blink == 0.0)
      && (!accepted && old(sel) == 0 ==> blink == old(blink))
    }

    /** Backspace removes the selection, or else the character before the cursor. */
    twostate predicate BackspaceEffect()
      requires old(Valid())
      reads this
    {
      && (old(sel) != 0 ==> text == WithoutSelection(old(text), old(pos), old(sel)) &&
                            pos == SelectionStart(old(pos), old(sel)))
      && (old(sel) == 0 && old(pos) > 0 ==>
            text == old(text)[..old(pos) - 1] + old(text)[old(pos)..] && pos == old(pos) - 1)
      && (old(sel) == 0 && old(pos) == 0 ==> text == old(text) && pos == 0)
      && sel == 0
      && (old(sel) != 0 || old(pos) > 0 ==> value == text && blink == 0.0)
      && (old(sel) == 0 && old(pos) == 0 ==> value == old(value) && blink == old(blink))
    }

    /** Delete removes the selection, or else the character at the cursor. */
    twostate predicate DeleteEffect()
      requires old(Valid())
      reads this
    {
      && (old(sel) != 0 ==> text == WithoutSelection(old(text), old(pos), old(sel)) &&
                            pos == SelectionStart(old(pos), old(sel)))
      && (old(sel) == 0 ==> text == Erase(old(text), old(pos), 1) && pos == old(pos))
      && sel == 0
      && (old(sel) != 0 || |old(text)| > 0 ==> value == text && blink == 0.0)
      && (old(sel) == 0 && |old(text)| == 0 ==> value == old(value) && blink == old(blink))
    }

    /**
     * Left and Right (`step` -1 or 1) move the cursor, or with Shift the
     * selection end, by one; text and value stay.
     */
    twostate predicate ArrowEffect(step: int, shift: bool)
      reads this
    {
      && text == old(text) && value == old(value)
      && (shift ==> pos == old(pos) && sel == Clamp(old(pos) + old(sel) + step, 0, |text|) - pos &&
                    blink == old(blink))
      && (!shift ==> pos == (if 0 <= old(pos) + step <= |text| then old(pos) + step else old(pos)) &&
                     sel == 0 && blink == 0.0)
    }

    /**
     * What the KeyDown branch of `TextView::onEvent` does, key by key.
     * `bubble` is the handler's result (true passes the event on); `action`
     * says the widget notified an Action update (Enter or Return).
     */
    twostate predicate KeyDownEffect(key: Key, mods: Modifiers, bubble: bool, action: bool)
      requires old(Valid())
      reads this
    {
      var plain := !mods.ctrl && !mods.alt && !mods.meta;
      && filter == old(filter)
      && (action <==> plain && (key == Enter || key == Return))
      && ModifierKeyEffect(key, mods, bubble)
      && (plain && IsPrint(key) ==> PrintKeyEffect(key.c, bubble))
      && (plain && key == Backspace ==> !bubble && BackspaceEffect())
      && (plain && key == Delete ==> !bubble && DeleteEffect())
      && (plain && key == Left ==> !bubble && ArrowEffect(-1, mods.shift))
      && (plain && key == Right ==> !bubble && ArrowEffect(1, mods.shift))
      // Up and Down jump to the ends.
      && (plain && key == Up ==>
            !bubble && text == old(text) && value == old(value) && pos == 0 && sel == 0 && blink == 0.0)
      && (plain && key == Down ==>
            !bubble && text == old(text) && value == old(value) && pos == |text| && sel == 0 && blink == 0.0)
      // Enter and Return are consumed; Tab and unprintable characters bubble; all leave the view as it is.
      && (plain && (key == Enter || key == Return) ==>
            !bubble && text == old(text) && pos == old(pos) && sel == old(sel) && value == old(value) &&
            blink == old(blink))
      && (plain && (key == Tab || (key.Char? && !IsPrintChar(key.c))) ==>
            bubble && text == old(text) && pos == old(pos) && sel == old(sel) && value == old(value) &&
            blink == old(blink))
    }

    /**
     * A printable key: any selection is deleted first; then, if there is no
     * filter or the filter accepts the key given the value and the cursor,
     * the character goes in at the cursor and the cursor moves past it.
     * Otherwise text, cursor and selection are put back, but the value keeps
     * the deletion.
     */
    method TypeChar(c: char) returns (accepted: bool)
      requires Valid()
      modifies this
      ensures Valid()
      ensures filter == old(filter)
      ensures PrintKeyEffect(c, !accepted)
    {
      var oldText := "";
      var oldSel := sel;
      var oldPos := pos;
      if sel != 0 {
        oldText := text;
        DeleteSelected();
      }
      accepted := filter.None? || filter.value(value, pos, c);
      if accepted {
        text := InsertAt(text, pos, c);
        value := text;
        CursorPos(pos + 1);
        return;
      }
      if oldText != "" {
        text := oldText;
        pos := oldPos;
        sel := oldSel;
      }
    }

    /** Backspace: the selection if there is one, else the character before the cursor. */
    method BackspaceKey()
      requires Valid()
      modifies this
      ensures Valid()
      ensures filter == old(filter)
      ensures BackspaceEffect()
    {
      if sel != 0 {
        DeleteSelected();
      } else if pos > 0 && pos <= |text| {
        DeleteText(pos - 1, 1);
        CursorPos(pos - 1);
      }
    }

    /** Delete: the selection if there is one, else the character at the cursor. */
    method DeleteKey()
      requires Valid()
      modifies this
      ensures Valid()
      ensures filter == old(filter)
      ensures DeleteEffect()
    {
      if sel != 0 {
        DeleteSelected();
      } else if |text| > 0 {
        DeleteText(pos, 1);
        CursorPos(pos);
      }
    }

    /**
     * Left or Right (`step` -1 or 1): with Shift the selection end moves, else
     * the cursor. Both go through `select` and `cursorPos`, which accept a
     * cursor left beyond the text.
     */
    method Arrow(step: int, shift: bool)
      modifies this
      ensures 0 <= old(pos) <= |text| ==> Valid()
      ensures filter == old(filter)
      ensures ArrowEffect(step, shift)
    {
      if shift {
        Select(sel + step);
      } else {
        CursorPos(pos + step);
      }
    }

    /** The KeyDown branch of `TextView::onEvent`, as `KeyDownEffect` states it. */
    method KeyDown(key: Key, mods: Modifiers) returns (bubble: bool, action: bool)
      requires Valid()
      modifies this
      ensures Valid()
      ensures KeyDownEffect(key, mods, bubble, action)
    {
      if mods.ctrl {
        if key == Char('a') {
          SelectAll();
          return false, false;
        }
        return true, false;
      }
      if mods.alt || mods.meta {
        return true, false;
      }
      if IsPrint(key) {
        var accepted := TypeChar(key.c);
        return !accepted, false;
      }
      match key {
        case Backspace =>
          BackspaceKey();
          return false, false;
        case Delete =>
          DeleteKey();
          return false, false;
        case Left =>
          Arrow(-1, mods.shift);
          return false, false;
        case Right =>
          Arrow(1, mods.shift);
          return false, false;
        case Down =>
          CursorPos(|text|);
          return false, false;
        case Up =>
          CursorPos(0);
          return false, false;
        case Enter =>
          return false, true;
        case Return =>
          return false, true;
        case _ =>
          return true, false;
      }
    }
  }

  // ---------------------------------------------------------------------------
  // SearchBox

  /** The string `c_str()` exposes: everything before the first NUL. */
  function CString(s: string): (r: string)
    ensures |r| <= |s| && r == s[..|r|]
    ensures '\0' !in r
    ensures |r| < |s| ==> s[|r|] == '\0'
  {
    if |s| == 0 || s[0] == '\0' then [] else [s[0]] + CString(s[1..])
  }

  function Take(s: string, n: nat): string
  {
    if n <= |s| then s[..n] else s
  }

  /** `strncmp(s.c_str(), t.c_str(), n) == 0`: the first `n` characters agree, terminators included. */
  predicate StrnZero(s: string, t: string, n: nat)
  {
    Take(CString(s), n) == Take(CString(t), n)
  }

  lemma {:induction false} CStringWithoutNul(s: string)
    requires '\0' !in s
    ensures CString(s) == s
  {
    if |s| > 0 {
      assert '\0' !in s[1..];
      CStringWithoutNul(s[1..]);
    }
  }

  /** For NUL-free strings the Tab test `strncmp(s, t, |t|) == 0` is exactly "t is a prefix of s". */
  lemma {:induction false} StrnZeroIsPrefix(s: string, t: string)
    requires '\0' !in s && '\0' !in t
    ensures StrnZero(s, t, |t|) <==> |t| <= |s| && s[..|t|] == t
  {
    CStringWithoutNul(s);
    CStringWithoutNul(t);
    if |s| < |t| {
      assert Take(CString(s), |t|) == s;
      assert |Take(CString(s), |t|)| != |Take(CString(t), |t|)|;
    }
  }

  /** `s.find(t) != npos`. */
  predicate Contains(s: string, t: string)
  {
    exists i :: 0 <= i <= |s| - |t| && OccursAt(s, t, i)
  }

  predicate OccursAt(s: string, t: string, i: int)
  {
    0 <= i && i + |t| <= |s| && s[i..i + |t|] == t
  }

  /** The items that contain `t`, in their original order. */
  function Matching(items: seq<string>, t: string): (r: seq<string>)
    ensures |r| <= |items|
  {
    if |items| == 0 then []
    else if Contains(items[0], t) then [items[0]] + Matching(items[1..], t)
    else Matching(items[1..], t)
  }

  /** An item is suggested exactly when it is listed and contains the typed text. */
  lemma {:induction false} MatchingMembers(items: seq<string>, t: string, s: string)
    ensures s in Matching(items, t) <==> s in items && Contains(s, t)
  {
    if |items| > 0 {
      MatchingMembers(items[1..], t, s);
      assert items == [items[0]] + items[1..];
    }
  }

  /** When every item contains the text, all are suggested, in order. */
  lemma {:induction false} MatchingAll(items: seq<string>, t: string)
    requires forall i :: 0 <= i < |items| ==> Contains(items[i], t)
    ensures Matching(items, t) == items
  {
    if |items| > 0 {
      MatchingAll(items[1..], t);
      assert items == [items[0]] + items[1..];
    }
  }

  lemma MatchingSnoc(items: seq<string>, s: string, t: string)
    ensures Matching(items + [s], t) == Matching(items, t) + (if Contains(s, t) then [s] else [])
  {
    if |items| > 0 {
      assert (items + [s])[1..] == items[1..] + [s];
      MatchingSnoc(items[1..], s, t);
    } else {
      assert (items + [s])[1..] == [];
    }
  }

  /** The suggestion loop of `SearchBox::onEvent`. */
  method Suggestions(items: seq<string>, t: string) returns (listItems: seq<string>)
    ensures listItems == Matching(items, t)
  {
    listItems := [];
    var i := 0;
    while i < |items|
      invariant 0 <= i <= |items|
      invariant listItems == Matching(items[..i], t)
    {
      assert items[..i + 1] == items[..i] + [items[i]];
      MatchingSnoc(items[..i], items[i], t);
      if Contains(items[i], t) {
        listItems := listItems + [items[i]];
      }
      i := i + 1;
    }
    assert items[..i] == items;
  }

  /** The list is shown unless it is empty or its one entry is as long as the typed text. */
  predicate ListShown(listItems: seq<string>, t: string)
  {
    |listItems| > 0 && !(|listItems| == 1 && |listItems[0]| == |t|)
  }

  /** Item `i` is the first one that `strncmp` finds equal to `t` on `|t|` characters. */
  predicate IsFirstCompletion(items: seq<string>, t: string, i: int)
  {
    0 <= i < |items| && StrnZero(items[i], t, |t|) && forall j :: 0 <= j < i ==> !StrnZero(items[j], t, |t|)
  }

  /** There is at most one first completion. */
  lemma FirstCompletionUnique(items: seq<string>, t: string, i: int, k: int)
    requires IsFirstCompletion(items, t, i) && IsFirstCompletion(items, t, k)
    ensures i == k
  {
  }

  /** The Tab loop of `SearchBox::onEvent`: the first item that `strncmp` finds equal on `|t|` characters. */
  method FirstCompletion(items: seq<string>, t: string) returns (r: Options.Option<nat>)
    ensures r.Some? ==> IsFirstCompletion(items, t, r.value)
    ensures r.None? <==> forall j :: 0 <= j < |items| ==> !StrnZero(items[j], t, |t|)
  {
    var i := 0;
    while i < |items|
      invariant 0 <= i <= |items|
      invariant forall j :: 0 <= j < i ==> !StrnZero(items[j], t, |t|)
    {
      if StrnZero(items[i], t, |t|) {
        return Options.Some(i);
      }
      i := i + 1;
    }
    return Options.None;
  }

  /**
   * A SearchBox: a TextView with a list of items it completes from and a
   * pop-up list of suggestions. `listItems` is the pop-up list's data and
   * `listIndex` its selected entry, whose value `getValue` gives.
   */
  class SearchBox {
    const view: TextView
    var items: seq<string>
    var listVisible: bool
    var listItems: seq<string>
    var listIndex: nat

    /** A shown list has a selected entry, and the list only ever holds items. */
    ghost predicate Valid()
      reads this, view
    {
      && view.Valid()
      && (listVisible ==> listIndex < |listItems|)
      && (forall i :: 0 <= i < |listItems| ==> listItems[i] in items)
    }

    constructor()
      ensures Valid() && fresh(view)
      ensures view.text == "" && items == [] && !listVisible && listItems == [] && listIndex == 0
    {
      view := new TextView();
      items, listVisible, listItems, listIndex := [], false, [], 0;
    }

    /** `addItem(v)`: appends to the item list. */
    method AddItem(v: string)
      requires Valid()
      modifies this
      ensures Valid()
      ensures items == old(items) + [v]
      ensures listVisible == old(listVisible) && listItems == old(listItems) && listIndex == old(listIndex)
    {
      items := items + [v];
    }

    /**
     * Tab on a non-empty text: the first item that `strncmp` finds equal on
     * the typed length becomes the text, cursor at its end; with none, or an
     * empty text, the view stays.
     */
    twostate predicate CompleteEffect()
      reads this, view
    {
      && (old(view.text) != "" ==>
            forall i :: IsFirstCompletion(items, old(view.value), i) ==> view.Shows(items[i]))
      && ((old(view.text) == "" ||
           forall i :: 0 <= i < |items| ==> !StrnZero(items[i], old(view.value), |old(view.value)|)) ==>
            view.StateKept())
      && view.filter == old(view.filter)
    }

    /** Tab, as `CompleteEffect` states it. */
    method Complete()
      requires Valid()
      modifies view
      ensures Valid()
      ensures CompleteEffect()
    {
      if view.text != "" {
        ghost var typed := view.value;
        var m := FirstCompletion(items, view.value);
        if m.Some? {
          view.SetValue(items[m.value]);
          view.CursorEnd();
          forall i | IsFirstCompletion(items, typed, i)
            ensures i == m.value
          {
            FirstCompletionUnique(items, typed, i, m.value);
          }
        }
      }
    }

    /**
     * Enter or Return: a visible list hands its selected entry, which is one
     * of the items, to the text; a hidden one leaves the view alone. The list
     * is hidden in either case.
     */
    twostate predicate AcceptEffect()
      requires old(Valid())
      reads this, view
    {
      && !listVisible && items == old(items) && listItems == old(listItems) && listIndex == old(listIndex)
      && (old(listVisible) ==> view.Shows(old(listItems[listIndex])) && view.text in items)
      && (!old(listVisible) ==> view.StateKept())
      && view.filter == old(view.filter)
    }

    /** Enter or Return before the TextView sees it, as `AcceptEffect` states it. */
    method AcceptSelection()
      requires Valid()
      modifies this, view
      ensures Valid()
      ensures AcceptEffect()
    {
      if listVisible {
        view.SetValue(listItems[listIndex]);
        view.CursorEnd();
      }
      listVisible := false;
    }

    /**
     * After an edit: the list shows the items containing the value, unless
     * there are none or the one match is as long as it. A shown list keeps
     * its selected entry, clipped to the new data as `clipIndices` does.
     */
    twostate predicate RefreshEffect()
      reads this, view
    {
      && items == old(items)
      && listVisible == (view.text != "" && ListShown(Matching(items, view.value), view.value))
      && listItems == (if listVisible then Matching(items, view.value) else old(listItems))
      && listIndex == (if listVisible then Clamp(old(listIndex), 0, |listItems| - 1) else old(listIndex))
    }

    /** The list refresh that follows an edit, as `RefreshEffect` states it. */
    method RefreshList()
      requires Valid()
      modifies this
      ensures Valid()
      ensures RefreshEffect()
    {
      listVisible := false;
      if view.text != "" {
        var found := Suggestions(items, view.value);
        if ListShown(found, view.value) {
          forall i | 0 <= i < |found|
            ensures found[i] in items
          {
            MatchingMembers(items, view.value, found[i]);
          }
          listItems := found;
          listIndex := Clamp(listIndex, 0, |found| - 1);
          listVisible := true;
        }
      }
    }

    /**
     * The KeyDown path of `SearchBox::onEvent`. Up and Down go to the pop-up
     * list; Tab completes; every other key is edited by the TextView, after
     * which, except for Enter and Return, the suggestion list is recomputed.
     */
    method KeyDown(key: Key, mods: Modifiers) returns (bubble: bool, action: bool)
      requires Valid()
      modifies this, view
      ensures Valid()
      ensures items == old(items)
      ensures key == Up || key == Down ==>
                !bubble && !action && view.StateKept() && listVisible == old(listVisible) &&
                listItems == old(listItems) && listIndex == old(listIndex)
      // Tab completes from the items and does not reach the TextView.
      ensures key == Tab ==>
                !bubble && !action && listVisible == old(listVisible) && listItems == old(listItems) &&
                listIndex == old(listIndex) && CompleteEffect()
      ensures (key == Enter || key == Return) ==>
                AcceptEffect() && (bubble <==> mods.ctrl || mods.alt || mods.meta) && (action <==> !bubble)
      // Every other key is the TextView's edit, then the list is refreshed.
      ensures key !in {Up, Down, Tab, Enter, Return} ==>
                view.KeyDownEffect(key, mods, bubble, action) && RefreshEffect()
    {
      match key {
        case Down =>
          return false, false;
        case Up =>
          return false, false;
        case Tab =>
          Complete();
          return false, false;
        case Enter =>
          bubble, action := EnterKey(key, mods);
        case Return =>
          bubble, action := EnterKey(key, mods);
        case _ =>
          bubble, action := EditKey(key, mods);
      }
    }

    /** Enter or Return: the list's entry is accepted, then the TextView handles the key. */
    method EnterKey(key: Key, mods: Modifiers) returns (bubble: bool, action: bool)
      requires Valid() && (key == Enter || key == Return)
      modifies this, view
      ensures Valid()
      ensures AcceptEffect()
      ensures bubble <==> mods.ctrl || mods.alt || mods.meta
      ensures action <==> !bubble
    {
      AcceptSelection();
      label accepted:
      bubble, action := view.KeyDown(key, mods);
      assert view.StateKept@accepted();
    }

    /** Any other key: the TextView edits and gives the result, then the suggestion list is recomputed. */
    method EditKey(key: Key, mods: Modifiers) returns (bubble: bool, action: bool)
      requires Valid()
      modifies this, view
      ensures Valid()
      ensures items == old(items)
      ensures view.KeyDownEffect(key, mods, bubble, action)
      ensures RefreshEffect()
    {
      bubble, action := view.KeyDown(key, mods);
      RefreshList();
    }
  }

  // ---------------------------------------------------------------------------
  // DropDown

  /** `tolower` in the C locale. */
  function Lower(c: char): (r: char)
    ensures 'A' <= c <= 'Z' ==> 'a' <= r <= 'z' && r as int - c as int == 'a' as int - 'A' as int
    ensures !('A' <= c <= 'Z') ==> r == c
  {
    if 'A' <= c <= 'Z' then (c as int - 'A' as int + 'a' as int) as char else c
  }

  /** `s[0]`, which for an empty `std::string` is its terminating NUL. */
  function FirstChar(s: string): char
  {
    if |s| == 0 then '\0' else s[0]
  }

  /** The printable-key loop of `DropDown::onEvent`: the first item whose lower-cased first letter matches. */
  method FirstLetterMatch(items: seq<string>, c: char) returns (r: Options.Option<nat>)
    ensures r.Some? ==> r.value < |items| && Lower(FirstChar(items[r.value])) == Lower(c)
    ensures r.Some? ==> forall j :: 0 <= j < r.value ==> Lower(FirstChar(items[j])) != Lower(c)
    ensures r.None? <==> forall j :: 0 <= j < |items| ==> Lower(FirstChar(items[j])) != Lower(c)
  {
    var lkey := Lower(c);
    for i := 0 to |items|
      invariant forall j :: 0 <= j < i ==> Lower(FirstChar(items[j])) != lkey
    {
      if lkey == Lower(FirstChar(items[i])) {
        return Options.Some(i);
      }
    }
    return Options.None;
  }

  /** A DropDown: an item list, the selected entry and whether the pop-up list shows. */
  class DropDown {
    var items: seq<string>
    var selected: int
    var listVisible: bool

    constructor(items0: seq<string>)
      ensures items == items0 && selected == 0 && !listVisible
    {
      items, selected, listVisible := items0, 0, false;
    }

    /**
     * A printable key in `DropDown::onEvent`: with a modifier it bubbles;
     * otherwise the first item with the same first letter is selected and the
     * list shown, and the event is consumed either way.
     */
    method KeyDownPrintable(c: char, mods: Modifiers) returns (bubble: bool)
      requires IsPrintChar(c)
      modifies this
      ensures items == old(items)
      ensures bubble <==> mods.ctrl || mods.alt || mods.meta
      ensures bubble ==> selected == old(selected) && listVisible == old(listVisible)
      ensures !bubble ==>
                forall i :: 0 <= i < |items| && Lower(FirstChar(items[i])) == Lower(c) &&
                            (forall j :: 0 <= j < i ==> Lower(FirstChar(items[j])) != Lower(c)) ==>
                              selected == i && listVisible
      ensures !bubble && (forall j :: 0 <= j < |items| ==> Lower(FirstChar(items[j])) != Lower(c)) ==>
                selected == old(selected) && listVisible == old(listVisible)
    {
      if mods.ctrl || mods.alt || mods.meta {
        return true;
      }
      var m := FirstLetterMatch(items, c);
      if m.Some? {
        selected := m.value;
        listVisible := true;
      }
      return false;
    }
  }

  // ---------------------------------------------------------------------------
  // NumberDialers

  /**
   * Typing digit `k` at place value `p` in `NumberDialers::onEvent`: the
   * magnitude gets `k` at that place and the sign of `vi` is put back.
   */
  function ReplaceDigit(vi: int, p: nat, k: nat): int
    requires p >= 1 && k <= 9
  {
    var absvi := Abs(vi);
    var absNew := absvi + (k - (absvi / p) % 10) * p;
    if vi < 0 then -absNew else absNew
  }

  lemma {:induction false} MulAtLeast(x: int, p: nat)
    requires x >= 1
    ensures x * p >= p
    decreases x
  {
    if x > 1 {
      MulAtLeast(x - 1, p);
      assert x * p == (x - 1) * p + p;
    }
  }

  lemma MulNonNegative(x: nat, y: nat)
    ensures x * y >= 0
  {
  }

  /** A non-zero multiple of `p` is at least `p` away from 0. */
  lemma {:induction false} MulAwayFromZero(x: int, p: int)
    requires p >= 0
    ensures x >= 1 ==> x * p >= p
    ensures x <= -1 ==> x * p <= -p
  {
    if x >= 1 {
      MulAtLeast(x, p);
    } else if x <= -1 {
      MulAtLeast(-x, p);
      assert (-x) * p == -(x * p);
    }
  }

  /** Quotient and remainder are unique. */
  lemma {:induction false} DivModUnique(a: int, p: int, q: int, r: int)
    requires p > 0 && 0 <= r < p && a == q * p + r
    ensures a / p == q && a % p == r
  {
    var q0, r0 := a / p, a % p;
    assert a == q0 * p + r0;
    assert (q - q0) * p == q * p - q0 * p;
    MulAwayFromZero(q - q0, p);
  }

  lemma {:induction false} MulUpTo9(k: nat, p: nat, l: nat)
    requires k <= 9 && l < p
    ensures k * p + l < 10 * p
  {
    assert (9 - k) * p >= 0;
    assert 9 * p == k * p + (9 - k) * p;
  }

  /** `a` split at place value `p`: the part above, the digit at `p`, the part below. */
  lemma {:induction false} PlaceSplit(a: nat, p: nat)
    requires p >= 1
    ensures a == (a / p / 10) * (10 * p) + (a / p % 10) * p + a % p
  {
    var q := a / p;
    assert a == q * p + a % p;
    assert q == 10 * (q / 10) + q % 10;
    assert q * p == (10 * (q / 10)) * p + (q % 10) * p;
    assert (10 * (q / 10)) * p == (q / 10) * (10 * p);
  }

  /** The magnitude after typing `k`, in the same three parts. */
  lemma {:induction false} ReplacedSplit(a: nat, p: nat, k: nat)
    requires p >= 1 && k <= 9
    ensures a + (k - a / p % 10) * p == (a / p / 10) * (10 * p) + k * p + a % p
  {
    PlaceSplit(a, p);
    assert (k - a / p % 10) * p == k * p - (a / p % 10) * p;
  }

  /** A number given by its three parts around place `p` has exactly those parts. */
  lemma {:induction false} PartsDetermine(a: int, p: int, h: int, d: nat, l: nat)
    requires p >= 1 && d <= 9 && l < p
    requires a == h * (10 * p) + d * p + l
    ensures a / (10 * p) == h && a % p == l && (a / p) % 10 == d
  {
    MulUpTo9(d, p, l);
    DivModUnique(a, 10 * p, h, d * p + l);
    assert h * (10 * p) + d * p == (10 * h + d) * p;
    DivModUnique(a, p, 10 * h + d, l);
  }

  /**
   * After typing: the place `p` holds `k`, the places below it (`% p`) and
   * above it (`/ (10 * p)`) are as before.
   */
  lemma {:induction false} ReplaceMagnitude(a: nat, p: nat, k: nat)
    requires p >= 1 && k <= 9
    ensures var a2 := a + (k - a / p % 10) * p;
            a2 >= 0 && (a2 / p) % 10 == k && a2 % p == a % p && a2 / (10 * p) == a / (10 * p)
  {
    DivNonNegative(a, p);
    PlaceSplit(a, p);
    ReplacedSplit(a, p, k);
    SameUpperAndLower(a, a + (k - a / p % 10) * p, p, a / p / 10, a / p % 10, k, a % p);
  }

  lemma {:induction false} DivNonNegative(a: nat, p: nat)
    requires p >= 1
    ensures a / p >= 0 && a / p / 10 >= 0
  {
    if a / p < 0 {
      MulAwayFromZero(a / p, p);
    }
  }

  /** Two numbers that share their parts above and below place `p` differ only in the digit at `p`. */
  lemma {:induction false} SameUpperAndLower(a: int, a2: int, p: int, h: nat, d: nat, k: nat, l: nat)
    requires p >= 1 && d <= 9 && k <= 9 && l < p
    requires a == h * (10 * p) + d * p + l
    requires a2 == h * (10 * p) + k * p + l
    ensures a2 >= 0
    ensures (a2 / p) % 10 == k && a2 % p == a % p && a2 / (10 * p) == a / (10 * p)
  {
    MulNonNegative(h, 10 * p);
    MulNonNegative(k, p);
    PartsDetermine(a, p, h, d, l);
    PartsDetermine(a2, p, h, k, l);
  }

  /**
   * `ReplaceDigit` sets digit `k` at place `p` of the magnitude, keeps the
   * lower and higher places, and keeps the sign of `vi` (a magnitude of 0 is
   * never negative).
   */
  lemma {:induction false} ReplaceDigitDigits(vi: int, p: nat, k: nat)
    requires p >= 1 && k <= 9
    ensures (Abs(ReplaceDigit(vi, p, k)) / p) % 10 == k
    ensures Abs(ReplaceDigit(vi, p, k)) % p == Abs(vi) % p
    ensures Abs(ReplaceDigit(vi, p, k)) / (10 * p) == Abs(vi) / (10 * p)
    ensures vi >= 0 ==> ReplaceDigit(vi, p, k) >= 0
    ensures vi < 0 ==> ReplaceDigit(vi, p, k) <= 0
  {
    var a := Abs(vi);
    var a2 := a + (k - a / p % 10) * p;
    ReplaceMagnitude(a, p, k);
    assert ReplaceDigit(vi, p, k) == if vi < 0 then -a2 else a2;
    assert Abs(ReplaceDigit(vi, p, k)) == a2;
  }

  /** Typing the digit already there changes nothing. */
  lemma {:induction false} ReplaceDigitSame(vi: int, p: nat)
    requires p >= 1
    ensures ReplaceDigit(vi, p, (Abs(vi) / p) % 10) == vi
  {
  }
}
