/**
 * The interaction controller of autocomplete-lite.js. Same shape as
 * autocomplete.js, with no search token (every answer is installed), a
 * `_hide` that closes the list only for some events, no mark on the last
 * item when stepping down onto it, and commit through each row's click
 * handler, which writes the raw string or `item.text`.
 */
module AutocompleteLite {
  import opened Common

  /** A suggestion: a raw string, a raw number, or a record with optional fields. */
  datatype Item =
    | Plain(s: string)
    | Num(n: int)
    | Entry(text: Option<string>, value: Option<string>, href: Option<string>)

  /** What the handler passes to its callback: `false` or an array of items. */
  datatype Response = NoItems | Items(list: seq<Item>)

  /** The target of the click event `_hide` receives from the container's listener. */
  datatype Target = Container | InsideContainer
  datatype ClickEvent = ClickEvent(target: Option<Target>)

  /**
   * What a key press does beyond the widget's own state: following an item's
   * link, or a TypeError thrown out of the listener.
   */
  datatype Effect = NoEffect | FollowLink(href: string) | TypeError

  /** `item.href`; a raw string or number has none. */
  function HrefOf(item: Item): Option<string> {
    if item.Entry? then item.href else None
  }

  /**
   * What the click handler of a row without a link writes into the input:
   * the item itself when it is a string, otherwise `item.text`, so a number
   * writes "undefined" and a record's `value` is never used.
   */
  function ClickText(item: Item): (r: string)
    ensures item.Plain? ==> r == item.s
    ensures item.Entry? && item.text.Some? ==> r == item.text.value
    ensures item.Num? || (item.Entry? && item.text.None?) ==> r == UndefinedText
  {
    if item.Plain? then item.s else if item.Entry? then FieldText(item.text) else UndefinedText
  }

  /** A record's `value` has no bearing on what a click writes. */
  lemma ClickIgnoresValue(text: Option<string>, v: Option<string>, w: Option<string>, href: Option<string>)
    ensures ClickText(Entry(text, v, href)) == ClickText(Entry(text, w, href))
  {
  }

  /** `_hide(e)` removes "open" for no event, no target, or the container itself. */
  predicate ClosesList(e: Option<ClickEvent>) {
    e.None? || e.value.target.None? || e.value.target == Some(Container)
  }

  class Widget {
    const limit: nat
    const minInputLength: int
    /** The container has the class "open". */
    var open: bool
    /** `_currentItems`; undefined until the first result set is installed. */
    var items: Option<seq<Item>>
    /** The "selected" class of each element of `_currentListEls`. */
    var marks: seq<bool>
    /** `_currentIndex`. */
    var index: int
    /** The attached input's `value`. */
    var inputValue: string

    /**
     * One element per current item, -1 <= index <= |items| - 1, any
     * selected position except the last is marked, and the last row never is.
     */
    ghost predicate Valid()
      reads this
    {
      && (items.None? ==> marks == [] && index == -1)
      && (items.Some? ==> |marks| == |items.value|)
      && -1 <= index < |marks|
      && (0 <= index < |marks| - 1 ==> marks[index])
      && (|marks| > 0 ==> !marks[|marks| - 1])
    }

    constructor (limit: nat, minInputLength: int, inputValue: string)
      ensures Valid()
      ensures this.limit == limit && this.minInputLength == minInputLength
      ensures this.inputValue == inputValue
      ensures !open && items == None && marks == [] && index == -1
    {
      this.limit := limit;
      this.minInputLength := minInputLength;
      this.inputValue := inputValue;
      open := false;
      items := None;
      marks := [];
      index := -1;
    }

    /** The effect of `_hide(e)`: the index always clears; "open" goes only for `ClosesList(e)`. */
    twostate predicate HiddenBy(e: Option<ClickEvent>)
      reads this
    {
      && index == -1
      && open == (old(open) && !ClosesList(e))
      && items == old(items) && marks == old(marks)
    }

    /**
     * The effect of `_search`: a short input only hides; otherwise the list
     * opens and the handler is called with the input's text. Neither the
     * index nor the current items change.
     */
    twostate predicate Searched(new query: Option<string>)
      reads this
    {
      && inputValue == old(inputValue)
      && if |inputValue| < minInputLength then
           query == None && HiddenBy(None)
         else
           && query == Some(inputValue)
           && open
           && items == old(items) && marks == old(marks) && index == old(index)
    }

    /** Everything but the index and the marks stays. */
    twostate predicate OnlySelectionChanged()
      reads this
    {
      && items == old(items) && open == old(open) && inputValue == old(inputValue)
      && |marks| == |old(marks)|
    }

    /** Up arrow: a no-op at -1; otherwise one step up, marking the new position. */
    twostate predicate MovedUp()
      reads this
    {
      && OnlySelectionChanged()
      && (old(index) == -1 ==> index == -1 && marks == old(marks))
      && (0 <= old(index) < |old(marks)| ==>
            && index == old(index) - 1
            && !marks[old(index)]
            && (index >= 0 ==> marks[index])
            && forall j :: 0 <= j < |marks| && j != old(index) && j != index ==> marks[j] == old(marks)[j])
    }

    /**
     * Down arrow over a result set: a no-op at the last index; otherwise one
     * step down, marking the new position unless it is the last one.
     */
    twostate predicate MovedDown()
      reads this
    {
      && OnlySelectionChanged()
      && (old(index) == |old(marks)| - 1 ==> index == old(index) && marks == old(marks))
      && (-1 <= old(index) < |old(marks)| - 1 ==>
            && index == old(index) + 1
            && marks[index] == (index < |marks| - 1)
            && (old(index) >= 0 ==> !marks[old(index)])
            && forall j :: 0 <= j < |marks| && j != old(index) && j != index ==> marks[j] == old(marks)[j])
    }

    /** `_show()`. */
    method Show()
      requires Valid()
      modifies this
      ensures Valid()
      ensures open
      ensures items == old(items) && marks == old(marks) && index == old(index)
      ensures inputValue == old(inputValue)
    {
      open := true;
    }

    /** `_hide(e)`. */
    method Hide(e: Option<ClickEvent>)
      requires Valid()
      modifies this
      ensures Valid()
      ensures HiddenBy(e) && inputValue == old(inputValue)
    {
      if e.None? || e.value.target.None? || e.value.target == Some(Container) {
        open := false;
      }
      index := -1;
    }

    /** `_search(handler, input)`: returns the query handed to the handler, if any. */
    method Search() returns (query: Option<string>)
      requires Valid()
      modifies this
      ensures Valid()
      ensures Searched(query)
    {
      if |inputValue| < minInputLength {
        Hide(None);
        return None;
      }
      Show();
      query := Some(inputValue);
    }

    /**
     * `_searchCallback(items)`, which every handler answer reaches. `false`
     * throws a TypeError (`false.slice` is not a function) before anything
     * changes; an empty array only hides; otherwise the truncated list is
     * installed, unmarked, with no selection.
     */
    method SearchCallback(response: Response) returns (typeError: bool)
      requires Valid()
      modifies this
      ensures Valid()
      ensures typeError <==> response.NoItems?
      ensures response.NoItems? ==> unchanged(this)
      ensures response == Items([]) ==> HiddenBy(None) && inputValue == old(inputValue)
      ensures response.Items? && response.list != [] ==>
                && items == Some(Truncate(response.list, limit))
                && |marks| == |items.value|
                && (forall j :: 0 <= j < |marks| ==> !marks[j])
                && index == -1
                && open == old(open) && inputValue == old(inputValue)
    {
      if response.NoItems? {
        return true;
      }
      typeError := false;
      var list := response.list;
      if |list| == 0 {
        Hide(None);
        return;
      }
      if |list| > limit {
        list := list[..limit];
      }
      items := Some(list);
      marks := seq(|list|, _ => false);
      index := -1;
    }

    /** `_keyup(handler, input, event)`: search unless the key is a navigation key. */
    method Keyup(key: Key) returns (query: Option<string>)
      requires Valid()
      modifies this
      ensures Valid()
      ensures !TriggersSearch(key) ==> query == None && unchanged(this)
      ensures TriggersSearch(key) ==> Searched(query)
    {
      if !TriggersSearch(key) {
        return None;
      }
      query := Search();
    }

    /**
     * The click handler `_renderItem` attaches to the row of item `i` when
     * the item has no link: write its text and hide. A row with a link is an
     * anchor, and clicking it follows the link.
     */
    method Click(i: int) returns (effect: Effect)
      requires Valid() && items.Some? && 0 <= i < |items.value|
      modifies this
      ensures Valid()
      ensures HrefOf(old(items).value[i]).Some? ==>
                effect == FollowLink(HrefOf(old(items).value[i]).value) && unchanged(this)
      ensures HrefOf(old(items).value[i]).None? ==>
                && effect == NoEffect
                && inputValue == ClickText(old(items).value[i])
                && HiddenBy(None)
    {
      var item := items.value[i];
      if HrefOf(item).Some? {
        return FollowLink(HrefOf(item).value);
      }
      if item.Plain? {
        inputValue := item.s;
      } else if item.Entry? {
        inputValue := FieldText(item.text);
      } else {
        inputValue := UndefinedText;
      }
      Hide(None);
      effect := NoEffect;
    }

    /**
     * `_keydown(handler, input, event)`. `prevented` records whether
     * `event.preventDefault()` was called.
     */
    method Keydown(key: Key) returns (prevented: bool, effect: Effect)
      requires Valid()
      modifies this
      ensures Valid()
      // ctrl and every other key: nothing at all
      ensures key.ctrl || key.code !in {38, 40, 9, 13, 27} ==>
                !prevented && effect == NoEffect && unchanged(this)
      // up
      ensures !key.ctrl && key.code == 38 ==> prevented && effect == NoEffect && MovedUp()
      // down: a TypeError before any result set, otherwise one step down
      ensures !key.ctrl && key.code == 40 ==>
                && prevented
                && (old(items).None? ==> effect == TypeError && unchanged(this))
                && (old(items).Some? ==> effect == NoEffect && MovedDown())
      // tab and enter: nothing without a selection, otherwise click the selected row
      ensures !key.ctrl && key.code in {9, 13} ==>
                && !prevented
                && (old(index) == -1 ==> effect == NoEffect && unchanged(this))
                && (old(index) >= 0 ==>
                      && old(items).Some?
                      && var item := old(items).value[old(index)];
                      && (HrefOf(item).Some? ==> effect == FollowLink(HrefOf(item).value) && unchanged(this))
                      && (HrefOf(item).None? ==>
                            effect == NoEffect && inputValue == ClickText(item) && HiddenBy(None)))
      // escape: always hides
      ensures !key.ctrl && key.code == 27 ==>
                !prevented && effect == NoEffect && HiddenBy(None) && inputValue == old(inputValue)
    {
      prevented, effect := false, NoEffect;
      if key.ctrl || key.code == 17 {
        return;
      }
      if key.code == 38 {
        prevented := true;
        if index == -1 {
          return;
        }
        marks := marks[index := false];
        index := index - 1;
        if index == -1 {
          return;
        }
        marks := marks[index := true];
      } else if key.code == 40 {
        prevented := true;
        if items.None? {
          // `_currentItems.length` on an undefined `_currentItems`
          effect := TypeError;
          return;
        }
        if index == |items.value| - 1 {
          return;
        }
        if index > -1 {
          marks := marks[index := false];
        }
        index := index + 1;
        if index == |items.value| - 1 {
          return;
        }
        marks := marks[index := true];
      } else if key.code == 9 || key.code == 13 {
        if index == -1 {
          return;
        }
        effect := Click(index);
      } else if key.code == 27 {
        Hide(None);
      }
    }
  }

  /**
   * The loop of the debounced closure: `args.unshift(bindArr[i])` for i from
   * the last index down to 0 puts `bindArr`, in its original order, before
   * the call's own arguments. Without `bindArr` the arguments pass as they are.
   */
  method BindArgs<A>(bindArr: Option<seq<A>>, args: seq<A>) returns (r: seq<A>)
    ensures bindArr.None? ==> r == args
    ensures bindArr.Some? ==> r == bindArr.value + args
  {
    r := args;
    if bindArr.Some? {
      var bound := bindArr.value;
      var i := |bound|;
      while i != 0
        invariant 0 <= i <= |bound|
        invariant r == bound[i..] + args
      {
        i := i - 1;
        r := [bound[i]] + r;
      }
    }
  }

  /**
   * `_debounce(func, delay, bindArr)`: the closure's single pending timer,
   * holding the arguments `func` will receive when the delay elapses.
   */
  class Debouncer<A> {
    const bindArr: Option<seq<A>>
    var pending: Option<seq<A>>

    constructor (bindArr: Option<seq<A>>)
      ensures this.bindArr == bindArr && pending == None
    {
      this.bindArr := bindArr;
      pending := None;
    }

    /** A call cancels whatever was pending and schedules `bindArr` followed by its own arguments. */
    method Call(args: seq<A>)
      modifies this
      ensures pending == Some((if bindArr.Some? then bindArr.value else []) + args)
    {
      var bound := BindArgs(bindArr, args);
      assert bindArr.None? ==> [] + args == args;
      pending := Some(bound);
    }

    /** The delay elapses: the pending arguments reach `func`, and the slot empties. */
    method Elapse() returns (fired: Option<seq<A>>)
      modifies this
      ensures fired == old(pending)
      ensures pending == None
    {
      fired := pending;
      pending := None;
    }
  }

  /** Of several calls within the delay only the last reaches `func`, after the bound arguments. */
  method DebounceLastCallWins<A>(bound: seq<A>, a: seq<A>, b: seq<A>)
    returns (fired: Option<seq<A>>, firedAgain: Option<seq<A>>)
    ensures fired == Some(bound + b)
    ensures firedAgain == None
  {
    var d := new Debouncer<A>(Some(bound));
    d.Call(a);
    d.Call(b);
    fired := d.Elapse();
    firedAgain := d.Elapse();
  }

  /** With no token, an answer to an older search is installed even after a newer search. */
  method OlderAnswerScenario(text: string, older: seq<Item>)
    returns (items: Option<seq<Item>>, open: bool)
    requires |text| >= 3 && older != []
    ensures items == Some(Truncate(older, 20)) && open
  {
    var w := new Widget(20, 3, text);
    var first := w.Search();
    var second := w.Search();
    var typeError := w.SearchCallback(Items(older));
    items, open := w.items, w.open;
  }

  /**
   * Two answers, arrow down twice: the index reaches the last item, whose
   * row is not marked, so no row is marked at all.
   */
  method StepOntoLastScenario() returns (index: int, marks: seq<bool>)
    ensures index == 1 && marks == [false, false]
  {
    var w := new Widget(20, 3, "app");
    var query := w.Search();
    var typeError := w.SearchCallback(Items([Plain("Apple"), Plain("Apricot")]));
    var prevented, effect := w.Keydown(Key(false, 40));
    prevented, effect := w.Keydown(Key(false, 40));
    index, marks := w.index, w.marks;
  }

  /** Enter on a selected record writes its `text`, not its `value`, and closes the list. */
  method CommitTextScenario() returns (written: string, open: bool, index: int)
    ensures written == "Foo"
    ensures !open && index == -1
  {
    var w := new Widget(20, 3, "foo");
    var query := w.Search();
    var typeError := w.SearchCallback(Items([Entry(Some("Foo"), Some("F"), None)]));
    var prevented, effect := w.Keydown(Key(false, 40));
    prevented, effect := w.Keydown(Key(false, 13));
    written, open, index := w.inputValue, w.open, w.index;
  }
}
