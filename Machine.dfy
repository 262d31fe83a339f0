/**
  The shopping-list state machine of the bot, as pure functions: the state
  the handlers share, what a text message does (`OnText`, the dispatch of
  `handle_message`) and what a button click does (`OnClick`, the decision
  logic of `handle_callback`). Each step returns the next state, the reply
  to render and whether the store was written to disk.
 */
module Machine {
  import opened TextOps
  import opened Items

  /** A Telegram user; `context.user_data` is kept per user. */
  type UserId = int

  /** The single key under which both dictionaries keep the shared list. */
  const Global: string := "global"

  // Main-menu labels, matched exactly after stripping.
  const EditLabel: string := "Изменить список"
  const ShowButtonsLabel: string := "Показать кнопки товаров"
  const ShowListLabel: string := "Показать список"

  // The texts the bot sends.
  const NotSetText: string := "Список пока не задан."
  const EmptyText: string := "Список пуст."
  const ChooseText: string := "Выберите купленный товар:"
  const AllBoughtText: string := "Все товары куплены! 🎉"
  const CongratsText: string := "🎊 Поздравляем! Список выполнен."
  const NoActiveText: string := "Нет активного списка."
  const PromptText: string := "Отправьте новый список (первая строка — дата, далее — товары)."
  const UpdatedText: string := "Список обновлён!"
  const UnknownText: string := "Неизвестная команда. Используйте меню."

  predicate IsMenuLabel(text: string) {
    text == ShowListLabel || text == ShowButtonsLabel || text == EditLabel
  }

  /** What one event makes the bot send. */
  datatype Reply =
    | ShowText(text: string)          // the stored list, verbatim
    | NotSet                          // no list stored yet
    | Empty                           // nothing to derive buttons from
    | Buttons(keyboard: seq<Button>)  // the remaining items as inline buttons
    | AllBought(congrats: bool)       // nothing left; `congrats`: a second message follows
    | NoActive                        // click without a purchase list
    | Prompt                          // asks for the new list
    | Updated                         // confirms the new list, with the main menu
    | Unknown                         // unrecognised text

  /** The texts of the messages a reply sends (or edits), in order. */
  function Messages(r: Reply): (ms: seq<string>)
    ensures |ms| == if r.AllBought? && r.congrats then 2 else 1
  {
    match r
    case ShowText(t) => [t]
    case NotSet => [NotSetText]
    case Empty => [EmptyText]
    case Buttons(_) => [ChooseText]
    case AllBought(c) => [AllBoughtText] + (if c then [CongratsText] else [])
    case NoActive => [NoActiveText]
    case Prompt => [PromptText]
    case Updated => [UpdatedText]
    case Unknown => [UnknownText]
  }

  /** The module-level dictionaries `shopping_lists` and `current_items`
      and the per-user flag `awaiting_list`. */
  datatype State = State(
    lists: map<string, string>,
    current: map<string, seq<Item>>,
    awaiting: map<UserId, bool>)

  /** The state at start-up: whatever the store held, nothing pending,
      nobody editing. */
  function Initial(loaded: map<string, string>): State {
    State(loaded, map[], map[])
  }

  function Stored(st: State): Option<string> {
    if Global in st.lists then Some(st.lists[Global]) else None
  }

  function Pending(st: State): Option<seq<Item>> {
    if Global in st.current then Some(st.current[Global]) else None
  }

  /** `context.user_data.get("awaiting_list")` is truthy. */
  predicate Awaiting(st: State, user: UserId) {
    user in st.awaiting && st.awaiting[user]
  }

  /** The outcome of one event: the next state, the reply, and whether
      `save_shopping_lists` ran. */
  datatype Step = Step(next: State, reply: Reply, saved: bool)

  /** `send_item_buttons`: a button per item, or "all bought" without
      the congratulation when there are none. */
  function ItemButtons(items: seq<Item>): Reply {
    if items == [] then AllBought(false) else Buttons(Keyboard(items))
  }

  /** `handle_message`: the text is stripped, then dispatched. */
  function OnText(st: State, user: UserId, raw: string): Step {
    Dispatch(st, user, Strip(raw))
  }

  /** The dispatch of `handle_message` on the stripped text: the three menu
      labels first, then the user's awaiting flag, then "unknown command". */
  function Dispatch(st: State, user: UserId, text: string): Step {
    if text == ShowListLabel then
      Step(st, if Global in st.lists then ShowText(st.lists[Global]) else NotSet, false)
    else if text == ShowButtonsLabel then
      if Global in st.lists then
        match DeriveItems(st.lists[Global])
        case None => Step(st, Empty, false)
        case Some(items) => Step(st.(current := st.current[Global := items]), ItemButtons(items), false)
      else Step(st, Empty, false)
    else if text == EditLabel then
      Step(st.(awaiting := st.awaiting[user := true]), Prompt, false)
    else if Awaiting(st, user) then
      Step(st.(lists := st.lists[Global := text], awaiting := st.awaiting[user := false]), Updated, true)
    else
      Step(st, Unknown, false)
  }

  /** `handle_callback`: drop every copy of the clicked item from the
      purchase list and re-render it, or report that there is none. */
  function OnClick(st: State, clicked: Item): Step {
    if Global in st.current then
      var rest := Remove(st.current[Global], clicked);
      Step(st.(current := st.current[Global := rest]),
           if rest != [] then Buttons(Keyboard(rest)) else AllBought(true), false)
    else
      Step(st, NoActive, false)
  }

  // ============================================================ properties

  lemma MenuLabelsDistinct()
    ensures ShowListLabel != ShowButtonsLabel
    ensures ShowListLabel != EditLabel
    ensures ShowButtonsLabel != EditLabel
  {
    assert |ShowListLabel| != |ShowButtonsLabel|;
    assert ShowListLabel[0] != EditLabel[0];
    assert |ShowButtonsLabel| != |EditLabel|;
  }

  // The menu labels have no surrounding whitespace, so each one is
  // matched by the message that is that label.

  lemma ShowListLabelTrimmed()
    ensures Strip(ShowListLabel) == ShowListLabel
  {
    StripTrimmed(ShowListLabel);
  }

  lemma ShowButtonsLabelTrimmed()
    ensures Strip(ShowButtonsLabel) == ShowButtonsLabel
  {
    StripTrimmed(ShowButtonsLabel);
  }

  lemma EditLabelTrimmed()
    ensures Strip(EditLabel) == EditLabel
  {
    StripTrimmed(EditLabel);
  }

  // One lemma per branch of `handle_message`, in the order it tests them,
  // each about the stripped text.

  /** "Показать список" answers with the stored text, or "not set yet",
      and changes nothing; a pending edit stays pending. */
  lemma ShowList(st: State, user: UserId)
    ensures var r := Dispatch(st, user, ShowListLabel);
      && r.next == st && !r.saved
      && r.reply == match Stored(st) case Some(t) => ShowText(t) case None => NotSet
  {
  }

  /** "Показать кнопки товаров" rebuilds the purchase list from the stored
      text and never touches the store or the flags; with no stored list,
      or one without lines, it answers "list empty" and changes nothing. */
  lemma ShowButtons(st: State, user: UserId)
    ensures var r := Dispatch(st, user, ShowButtonsLabel);
      && r.next.lists == st.lists && r.next.awaiting == st.awaiting && !r.saved
      && (Stored(st) == None || Stored(st) == Some([]) ==> r.next == st && r.reply == Empty)
      && (Stored(st).Some? && Stored(st) != Some([]) ==>
            var items := SplitLines(Stored(st).value)[1..];
            && Pending(r.next) == Some(items)
            && r.next.current == st.current[Global := items]
            && r.reply == ItemButtons(items))
  {
    MenuLabelsDistinct();
  }

  /** "Изменить список" asks for the new list and sets the sender's flag,
      whatever it was; nothing else changes. */
  lemma BeginEdit(st: State, user: UserId)
    ensures Dispatch(st, user, EditLabel) == Step(st.(awaiting := st.awaiting[user := true]), Prompt, false)
  {
    MenuLabelsDistinct();
  }

  /** Other text from an awaiting user replaces the list with that text,
      saves the store and clears that user's flag. */
  lemma Submit(st: State, user: UserId, text: string)
    requires Awaiting(st, user) && !IsMenuLabel(text)
    ensures var r := Dispatch(st, user, text);
      && r.next == st.(lists := st.lists[Global := text], awaiting := st.awaiting[user := false])
      && r.saved && r.reply == Updated
  {
  }

  /** Text that is no label from a user who is not awaiting is rejected and
      changes nothing. */
  lemma UnknownCommand(st: State, user: UserId, text: string)
    requires !IsMenuLabel(text) && !Awaiting(st, user)
    ensures Dispatch(st, user, text) == Step(st, Unknown, false)
  {
  }

  // Properties of whole messages, which combine the branches.

  /** A menu label is a command even while the user is awaiting: it never
      overwrites the list, and only "Изменить список" touches the flags. */
  lemma MenuLabelsWin(st: State, user: UserId, raw: string)
    requires IsMenuLabel(Strip(raw))
    ensures var r := OnText(st, user, raw);
      && r.next.lists == st.lists && !r.saved && r.reply != Updated
      && (Strip(raw) != EditLabel ==> r.next.awaiting == st.awaiting)
      && (Strip(raw) == EditLabel ==> r.next.awaiting == st.awaiting[user := true] && r.reply == Prompt)
  {
    MenuLabelsDistinct();
    var text := Strip(raw);
    if text == ShowListLabel {
      ShowList(st, user);
    } else if text == ShowButtonsLabel {
      ShowButtons(st, user);
    } else {
      BeginEdit(st, user);
    }
  }

  /** The flags after one dispatch, for the sender and for anyone else. */
  lemma DispatchFlags(st: State, user: UserId, other: UserId, text: string)
    requires other != user
    ensures var next := Dispatch(st, user, text).next;
      && (Awaiting(next, user) <==>
            text == EditLabel || (Awaiting(st, user) && (text == ShowListLabel || text == ShowButtonsLabel)))
      && (Awaiting(next, other) <==> Awaiting(st, other))
  {
    MenuLabelsDistinct();
  }

  /** How a user's flag moves: set by "Изменить список", kept by the other
      two labels, cleared by anything else; other users' flags never move. */
  lemma AwaitingTransition(st: State, user: UserId, other: UserId, raw: string)
    requires other != user
    ensures var next := OnText(st, user, raw).next;
      && (Awaiting(next, user) <==>
            Strip(raw) == EditLabel
            || (Awaiting(st, user) && (Strip(raw) == ShowListLabel || Strip(raw) == ShowButtonsLabel)))
      && (Awaiting(next, other) <==> Awaiting(st, other))
  {
    DispatchFlags(st, user, other, Strip(raw));
  }

  /** The in-memory store changes only on a step that also saves it, and
      then holds the stripped text under the shared key. */
  lemma StoreChangesOnlyWhenSaved(st: State, user: UserId, raw: string)
    ensures var r := OnText(st, user, raw);
      && (r.next.lists != st.lists ==> r.saved)
      && (r.saved ==> r.next.lists == st.lists[Global := Strip(raw)])
  {
    var text := Strip(raw);
    if IsMenuLabel(text) {
      MenuLabelsWin(st, user, raw);
    } else if Awaiting(st, user) {
      Submit(st, user, text);
    } else {
      UnknownCommand(st, user, text);
    }
  }

  /** After a submission any user's "Показать список" shows exactly the
      submitted text, stripped. */
  lemma SubmitThenShow(st: State, user: UserId, other: UserId, raw: string)
    requires Awaiting(st, user) && !IsMenuLabel(Strip(raw))
    ensures OnText(OnText(st, user, raw).next, other, ShowListLabel).reply == ShowText(Strip(raw))
  {
    Submit(st, user, Strip(raw));
    ShowListLabelTrimmed();
    ShowList(OnText(st, user, raw).next, other);
  }

  /** "Изменить список" followed by "Показать список" leaves the list as it
      was and the user still awaiting. */
  lemma EditThenShow(st: State, user: UserId)
    ensures var r := OnText(OnText(st, user, EditLabel).next, user, ShowListLabel);
      && r.next.lists == st.lists && Awaiting(r.next, user)
      && r.reply == match Stored(st) case Some(t) => ShowText(t) case None => NotSet
  {
    EditLabelTrimmed();
    BeginEdit(st, user);
    ShowListLabelTrimmed();
    ShowList(OnText(st, user, EditLabel).next, user);
  }

  /** A list that is only its header line yields an empty purchase list and
      "all bought", with no congratulation. */
  lemma ShowButtonsHeaderOnly(st: State, user: UserId, raw: string)
    requires Strip(raw) == ShowButtonsLabel
    requires Stored(st).Some? && Stored(st).value != [] && NoLineBreak(Stored(st).value)
    ensures var r := OnText(st, user, raw);
      && Pending(r.next) == Some([]) && r.reply == AllBought(false)
  {
    ShowButtons(st, user);
    SingleLine(Stored(st).value);
  }

  /** Asking for the buttons twice, with no click between, gives the same
      purchase list and the same buttons. */
  lemma ShowButtonsTwice(st: State, user: UserId, other: UserId, raw: string, raw': string)
    requires Strip(raw) == ShowButtonsLabel && Strip(raw') == ShowButtonsLabel
    ensures var r := OnText(st, user, raw);
      var r' := OnText(r.next, other, raw');
      r'.next == r.next && r'.reply == r.reply
  {
    ShowButtons(st, user);
    ShowButtons(OnText(st, user, raw).next, other);
  }

  /** A click with a purchase list drops every copy of the clicked item,
      keeps the other items in their order and counts, and so never
      lengthens the list. */
  lemma ClickRemovesAll(st: State, clicked: Item)
    requires Pending(st).Some?
    ensures var before := Pending(st).value;
      var r := OnClick(st, clicked);
      && Pending(r.next).Some?
      && var after := Pending(r.next).value;
      && clicked !in after
      && IsSubsequence(after, before)
      && multiset(after) == multiset(before)[clicked := 0]
      && |after| == |before| - multiset(before)[clicked]
  {
    var before := Pending(st).value;
    RemoveIsSubsequence(before, clicked);
    RemoveMultiset(before, clicked);
    RemoveLength(before, clicked);
  }

  /** Clicking one item twice is the same as clicking it once. */
  lemma ClickTwice(st: State, clicked: Item)
    ensures var r := OnClick(st, clicked);
      OnClick(r.next, clicked) == r
  {
    if Global in st.current {
      RemoveIdempotent(st.current[Global], clicked);
    }
  }

  /** The reply to a click: buttons for exactly the remaining items, in
      order, or "all bought" followed by exactly one congratulation. */
  lemma ClickReply(st: State, clicked: Item)
    requires Pending(st).Some?
    ensures var r := OnClick(st, clicked);
      var after := Pending(r.next).value;
      && (after != [] ==>
            r.reply.Buttons? && |r.reply.keyboard| == |after|
            && forall n :: 0 <= n < |after| ==>
                 r.reply.keyboard[n] == Button(after[n], after[n]))
      && (after == [] ==>
            r.reply == AllBought(true)
            && Messages(r.reply) == [AllBoughtText, CongratsText]
            && multiset(Messages(r.reply))[CongratsText] == 1)
  {
    assert AllBoughtText != CongratsText;
  }

  /** A click on an already empty purchase list lands on "all bought"
      again and leaves the list empty. */
  lemma ClickWhenAllBought(st: State, clicked: Item)
    requires Pending(st) == Some([])
    ensures var r := OnClick(st, clicked);
      r.next == st && r.reply == AllBought(true)
  {
  }

  /** Without a purchase list a click answers "no active list" and
      changes nothing. */
  lemma ClickWithoutPending(st: State, clicked: Item)
    requires Pending(st) == None
    ensures OnClick(st, clicked) == Step(st, NoActive, false)
  {
  }

  /** A click never touches the store, the flags or the disk. */
  lemma ClickKeepsStoreAndFlags(st: State, clicked: Item)
    ensures var r := OnClick(st, clicked);
      r.next.lists == st.lists && r.next.awaiting == st.awaiting && !r.saved
  {
  }

  /** The state after a run of clicks, one after another. */
  function ClickAll(st: State, clicks: seq<Item>): State
    decreases |clicks|
  {
    if clicks == [] then st else ClickAll(OnClick(st, clicks[0]).next, clicks[1..])
  }

  /** Over any run of clicks the purchase list only shrinks: what is left
      is a subsequence of what was there, holding every copy of the items
      that were not clicked and none of those that were; the store and the flags stay as they were. */
  lemma {:induction false} ClicksOnlyShrink(st: State, clicks: seq<Item>)
    requires Pending(st).Some?
    ensures var end := ClickAll(st, clicks);
      var before := Pending(st).value;
      && Pending(end).Some?
      && IsSubsequence(Pending(end).value, before)
      && (forall y :: multiset(Pending(end).value)[y] == if y in clicks then 0 else multiset(before)[y])
      && end.lists == st.lists && end.awaiting == st.awaiting
    decreases |clicks|
  {
    var before := Pending(st).value;
    if clicks == [] {
      SubsequenceReflexive(before);
    } else {
      var mid := OnClick(st, clicks[0]).next;
      ClickRemovesAll(st, clicks[0]);
      ClicksOnlyShrink(mid, clicks[1..]);
      SubsequenceTransitive(Pending(ClickAll(mid, clicks[1..])).value, Pending(mid).value, before);
      assert forall y :: y in clicks <==> y == clicks[0] || y in clicks[1..];
    }
  }

  /** Clicking every item of the purchase list, in order, empties it. */
  lemma BuyEverything(st: State)
    requires Pending(st).Some?
    ensures Pending(ClickAll(st, Pending(st).value)) == Some([])
  {
    ClicksOnlyShrink(st, Pending(st).value);
    var after := Pending(ClickAll(st, Pending(st).value)).value;
    assert multiset(after) == multiset{};
    assert |multiset(after)| == |after|;
  }

  /** Buying "milk" from milk, bread, milk leaves only bread. */
  lemma ClickExample(st: State)
    requires Pending(st) == Some(["milk", "bread", "milk"])
    ensures var r := OnClick(st, "milk");
      Pending(r.next) == Some(["bread"]) && r.reply == Buttons([Button("bread", "bread")])
  {
    RemoveExample();
  }
}
