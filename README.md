# Shared shopping list bot — Dafny model

A model of the shopping-list state machine of a Telegram bot that keeps one
shopping list shared by all of its users. The list is a block of text: the
first line is a date or label, every further line is one item. Three
persisted and transient pieces of state make up the bot:

- `shopping_lists`: the store, a dictionary persisted as a JSON file. The
  list lives under the key `"global"`.
- `current_items["global"]`: the purchase list in memory. It is derived from
  the stored text when a user asks for the item buttons, and it shrinks as
  items are clicked.
- `context.user_data["awaiting_list"]`: a per-user flag. It is set by
  "Изменить список" and makes that user's next plain message the new list.

Four files:

- `TextOps.dfy`: Python's `str.strip()` (`Strip`, bot.py:55) and
  `str.splitlines()` (`SplitLines`, bot.py:64) on Unicode scalar values.
  `Strip` uses Python's full `str.isspace()` set. `SplitLines` uses Python's
  full set of line boundaries, with `"\r\n"` counted as one boundary and
  no empty line after a final boundary; `SplitCons` states this for every
  kind of boundary. `SplitJoin` proves that `SplitLines` undoes `JoinLines`
  (lines joined with `"\n"`) for lines without boundaries whose last line
  is not empty; only that direction is proved.
- `Items.dfy`: deriving the items from the stored text (lines after the
  first one), removing every copy of a clicked item, and the inline keyboard.
- `Machine.dfy`: the pure state machine. `State` holds the two dictionaries
  and the flags (bot.py:33-34, 74), and `Initial` is the state at start-up
  (bot.py:33-34). `OnText` is `handle_message` (bot.py:54-81): it strips the
  text and hands it to `Dispatch` (bot.py:57-81), which tests the branches
  in the source's order. The per-branch lemmas are stated on `Dispatch`.
  `ItemButtons` is `send_item_buttons` (bot.py:83-90). `OnClick` is the
  decision logic of `handle_callback` (bot.py:92-109). Each step returns a `Step`: the
  next state, the `Reply` to render, and whether the store was saved. The
  lemmas here state the bot's behaviour.
- `Bot.dfy`: the class `ShoppingBot`. It holds the state as fields, and its
  handlers `HandleMessage` and `HandleCallback` change them in place as the
  source does. Each handler is proved equal to the matching `Machine` step.
  The ghost field `persisted` stands for the JSON file. `Save` copies the
  whole store into it. The invariant `Valid()` (`persisted == lists`) holds
  between events.

Some behaviours of the code that a reader might not expect, all modelled
as the code has them:

- The stored text is the message after `strip()`, not the message verbatim
  (bot.py:55, 76).
- The awaiting flag is kept per user in `context.user_data` (bot.py:74-79).
  It is not a single global mode.
- A message made only of whitespace, sent while awaiting, stores the empty
  string, so the stored text can be empty.
- A stored list with only its header line is not "list empty". The bot sets
  an empty purchase list and answers "Все товары куплены! 🎉", with no
  congratulation (bot.py:65-69, 84-86). Only text with no lines at all gives
  "Список пуст.".

## Model

| member | source | states |
|---|---|---|
| TextOps.StripSpec | bot.py:55 | the stripped text has no leading or trailing whitespace and is the input with only whitespace removed around it |
| TextOps.StripTrimmed | bot.py:55 | text with no surrounding whitespace is unchanged by strip, so the menu labels match themselves |
| TextOps.StripIdempotent | bot.py:55 | stripping twice is the same as stripping once |
| TextOps.StripEmpty | bot.py:55 | strip gives the empty string exactly when the input is all whitespace |
| TextOps.StripStart | bot.py:55 | leading whitespace is dropped and the result is a suffix of the input |
| TextOps.StripEnd | bot.py:55 | trailing whitespace is dropped and the result is a prefix of the input |
| TextOps.LineEnd | bot.py:64 | the first line boundary, with no boundary before it |
| TextOps.NextLineStart | bot.py:64 | the next line starts just past the first boundary, and what it skips is exactly one boundary: CR LF, or a single boundary character that is not a CR before LF |
| TextOps.SplitLines | bot.py:64 | no lines exactly for the empty text, and no line contains a boundary |
| TextOps.SplitCons | bot.py:64 | a line, one boundary of any kind (`"\n"`, `"\r\n"`, a lone `"\r"`, `"\x0b"`, `"\x0c"`, `"\x1c"`-`"\x1e"`, `"\x85"`, `"\u2028"`, `"\u2029"`) and more text split into that line followed by the lines of the rest |
| TextOps.SplitJoin | bot.py:64 | `SplitLines` undoes `JoinLines` for lines without boundaries whose last line is not empty |
| TextOps.SingleLine | bot.py:64-65 | non-empty text without a boundary is exactly one line |
| Items.DeriveItems | bot.py:64-68 | no purchase list exactly when the text has no lines; otherwise one item fewer than lines, none holding a boundary |
| Items.DeriveComposed | bot.py:64-68 | a header line followed by item lines derives exactly those items, in order, duplicates kept |
| Items.DeriveAfterHeader | bot.py:64-68 | whatever boundary ends the header line, the items are exactly the lines of the text after it |
| Items.DeriveHeaderOnly | bot.py:64-68 | a list that is only a header line derives the empty purchase list |
| Items.DeriveExample | bot.py:64-68 | "2024-01-01\nmilk\nbread\nmilk" derives milk, bread, milk |
| Items.Remove | bot.py:99 | the result holds exactly the items that differ from the clicked one and is never longer |
| Items.RemoveIsSubsequence | bot.py:99 | the remaining items keep their original order: a subsequence of the input |
| Items.RemoveMultiset | bot.py:99 | every copy of the clicked item goes, and every other item keeps its count |
| Items.RemoveLength | bot.py:99 | the new length is the old length minus the number of copies clicked |
| Items.RemoveAppend | bot.py:99 | removal distributes over concatenation |
| Items.RemoveAbsent | bot.py:99 | clicking text not in the list changes nothing |
| Items.RemoveIdempotent | bot.py:99 | clicking the same item twice equals clicking it once |
| Items.RemoveCommutes | bot.py:99 | the order of two purchases does not matter |
| Items.RemoveExample | bot.py:99 | clicking milk in milk, bread, milk leaves bread |
| Items.Keyboard | bot.py:88 | one button per item, in order, each with the item as its text and as its callback data |
| Machine.Messages | bot.py:57-109 | every reply sends one message, except the final purchase, which sends two |
| Machine.MenuLabelsDistinct | bot.py:57-72 | the three labels differ, so each one reaches its own branch |
| Machine.ShowListLabelTrimmed | bot.py:42 | the label "Показать список" is unchanged by strip |
| Machine.ShowButtonsLabelTrimmed | bot.py:41 | the label "Показать кнопки товаров" is unchanged by strip |
| Machine.EditLabelTrimmed | bot.py:40 | the label "Изменить список" is unchanged by strip |
| Machine.ShowList | bot.py:57-61 | "Показать список" replies with the stored text or "not set yet" and changes no state |
| Machine.MenuLabelsWin | bot.py:57-75 | a label never overwrites the list, even while awaiting; only "Изменить список" changes the flags, and it sets the sender's |
| Machine.BeginEdit | bot.py:72-74 | "Изменить список" replies with the prompt, sets the sender's flag and changes nothing else |
| Machine.Submit | bot.py:75-79 | other stripped text from an awaiting user is stored, saves, clears that user's flag and replies "updated" |
| Machine.SubmitThenShow | bot.py:55-59 | after a submission, any user's "Показать список" shows exactly the stripped submitted text |
| Machine.EditThenShow | bot.py:57-61 | "Изменить список" then "Показать список" leaves the list unchanged and the user still awaiting |
| Machine.UnknownCommand | bot.py:80-81 | text that is no label, from a user who is not awaiting, replies "unknown command" and changes nothing |
| Machine.AwaitingTransition | bot.py:72-79 | a user's flag after a message is set exactly for "Изменить список" or for another label while set; other users' flags never change |
| Machine.StoreChangesOnlyWhenSaved | bot.py:76-77 | the store changes only on a step that saves it, and then holds the stripped text |
| Machine.ShowButtons | bot.py:62-71 | rebuilds the purchase list from the lines after the first and replies with its buttons; with no list or no lines, replies "list empty" and changes nothing |
| Machine.ShowButtonsHeaderOnly | bot.py:62-69 | a one-line list gives an empty purchase list and "all bought" without a congratulation |
| Machine.ShowButtonsTwice | bot.py:62-69 | asking for the buttons again without a click gives the same state and reply |
| Machine.ClickRemovesAll | bot.py:98-99 | no copy of the clicked item is left, the others keep their order and counts, and the list never grows |
| Machine.ClickTwice | bot.py:98-99 | the second identical click changes nothing and gives the same reply |
| Machine.ClickReply | bot.py:101-107 | buttons for exactly the remaining items in order, or "all bought" plus exactly one congratulation |
| Machine.ClickWhenAllBought | bot.py:99-107 | a click on an empty purchase list reaches the "all bought" branch again |
| Machine.ClickWithoutPending | bot.py:98-109 | with no purchase list, a click replies "no active list" and changes nothing |
| Machine.ClickKeepsStoreAndFlags | bot.py:92-109 | clicks never touch the store, the flags or the file |
| Machine.ClicksOnlyShrink | bot.py:99 | over any run of clicks the purchase list only shrinks, keeping exactly the unclicked items with their counts |
| Machine.BuyEverything | bot.py:99-106 | clicking every item of the purchase list empties it |
| Machine.ClickExample | bot.py:99-104 | clicking milk in milk, bread, milk leaves bread and a single bread button |
| Bot.ShoppingBot.constructor | bot.py:33-34 | the store is the loaded map, the file holds the same, nothing is pending and nobody is awaiting |
| Bot.ShoppingBot.Save | bot.py:29-31 | the file receives the whole in-memory store |
| Bot.ShoppingBot.HandleMessage | bot.py:54-81 | the new fields and the reply are those of the `OnText` step; the file equals the store afterwards and changes only when the step saves |
| Bot.ShoppingBot.HandleCallback | bot.py:92-109 | the new fields and the reply are those of the `OnClick` step; the file is untouched |
| Bot.EditShowItems | bot.py:54-79 | on a fresh bot, edit then submit then show returns the stripped text, and the buttons derive its items |

## Left out

- Telegram transport: `Update`, `reply_text`, `edit_message_text`,
  `send_message`, `query.answer` and the keyboard markup objects. Their
  effect is the returned `Reply` only. `Messages` gives the texts sent. It
  does not distinguish a new message from an edit of the clicked one.
- Rejections by the Telegram API are not modelled. In the source they
  raise after the state has already changed, while the model returns an
  ordinary `Reply`: `reply_text` of an empty stored list (the model gives
  `ShowText("")`); a button with empty text or with callback data over 64
  bytes (an empty item line, as in `"h\n\nmilk"`, or a long item);
  `edit_message_text` with an unchanged message and keyboard ("message is
  not modified"), as on the second click of `ClickTwice` or a click on
  an item no longer in the list.
- The main-menu keyboard attached to "Список обновлён!" (bot.py:78) and
  `get_main_menu` (bot.py:37-45): rendering only.
- `start`, `set_bot_commands`, `main`, the token and the polling loop
  (bot.py:48-52, 112-131): start-up plumbing. The `filters.TEXT &
  ~filters.COMMAND` filter is left out too. So `HandleMessage` accepts any
  text, including text that the filter would send elsewhere.
- async/await and races between users on the shared dictionaries. The model
  is sequential: one event at a time.
- JSON file I/O in `load_shopping_lists` and `save_shopping_lists`
  (bot.py:23-31). Start-up takes the loaded map as a parameter. Saving is a
  ghost copy into `persisted`. A missing file (bot.py:27) is the empty map
  given to the constructor.
- Bot.ShoppingBot.HandleMessage: assumes saving always succeeds. In the
  source, a failing `save_shopping_lists` raises after `shopping_lists` has
  changed in memory, so no reply is sent and the user stays awaiting. An
  unreadable file at start-up is a crash and is not modelled either.
