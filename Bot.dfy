/**
  The bot's handlers over its mutable state: `shopping_lists`,
  `current_items` and the per-user `awaiting_list` flags are fields that
  the two handlers update in place. `persisted` stands for the JSON file:
  saving copies the whole store into it. Each handler is proved to do
  exactly what the matching step of `Machine` describes.
 */
module Bot {
  import opened TextOps
  import opened Items
  import opened Machine

  class ShoppingBot {
    var lists: map<string, string>          // shopping_lists
    var current: map<string, seq<Item>>     // current_items
    var awaiting: map<UserId, bool>         // context.user_data["awaiting_list"], per user
    ghost var persisted: map<string, string>  // contents of shopping_lists.json

    function Snapshot(): State
      reads this
    {
      State(lists, current, awaiting)
    }

    /** Every change to the store is followed by a save, so the file never
        lags behind memory between events. */
    ghost predicate Valid()
      reads this
    {
      persisted == lists
    }

    /** Start-up: `shopping_lists = load_shopping_lists()` with the loaded
        contents as given, `current_items = {}`, no user awaiting. */
    constructor (loaded: map<string, string>)
      ensures Valid() && Snapshot() == Initial(loaded)
    {
      lists := loaded;
      current := map[];
      awaiting := map[];
      persisted := loaded;
    }

    /** `save_shopping_lists(shopping_lists)`: the whole map is written. */
    method Save()
      modifies this`persisted
      ensures persisted == lists
    {
      persisted := lists;
    }

    /** `handle_message` for one text message from `user`. */
    method HandleMessage(user: UserId, raw: string) returns (reply: Reply)
      requires Valid()
      modifies this
      ensures Valid()
      ensures var step := OnText(old(Snapshot()), user, raw);
        && Snapshot() == step.next && reply == step.reply
        && persisted == if step.saved then lists else old(persisted)
    {
      ghost var st := Snapshot();
      var text := Strip(raw);
      if text == ShowListLabel {
        ShowList(st, user);
        if Global in lists {
          reply := ShowText(lists[Global]);
        } else {
          reply := NotSet;
        }
      } else if text == ShowButtonsLabel {
        ShowButtons(st, user);
        if Global in lists {
          var lines := SplitLines(lists[Global]);
          if lines == [] {
            reply := Empty;
            return;
          }
          current := current[Global := lines[1..]];
          reply := ItemButtons(current[Global]);
        } else {
          reply := Empty;
        }
      } else if text == EditLabel {
        BeginEdit(st, user);
        reply := Prompt;
        awaiting := awaiting[user := true];
      } else if user in awaiting && awaiting[user] {
        Submit(st, user, text);
        lists := lists[Global := text];
        Save();
        reply := Updated;
        awaiting := awaiting[user := false];
      } else {
        UnknownCommand(st, user, text);
        reply := Unknown;
      }
    }

    /** `handle_callback` for a click on the button whose callback data is
        `clicked`. */
    method HandleCallback(clicked: Item) returns (reply: Reply)
      requires Valid()
      modifies this
      ensures Valid()
      ensures var step := OnClick(old(Snapshot()), clicked);
        && Snapshot() == step.next && reply == step.reply
        && persisted == old(persisted)
    {
      if Global in current {
        current := current[Global := Remove(current[Global], clicked)];
        if current[Global] != [] {
          reply := Buttons(Keyboard(current[Global]));
        } else {
          reply := AllBought(true);
        }
      } else {
        reply := NoActive;
      }
    }
  }

  /** A session seen from outside: a user replaces the list, views it and
      asks for the buttons; the bot shows the stripped text and its items. */
  method EditShowItems(loaded: map<string, string>, user: UserId, raw: string)
    returns (shown: Reply, pending: Option<seq<Item>>)
    requires !IsMenuLabel(Strip(raw))
    ensures shown == ShowText(Strip(raw))
    ensures pending == DeriveItems(Strip(raw))
  {
    var bot := new ShoppingBot(loaded);
    EditLabelTrimmed();
    ShowListLabelTrimmed();
    ShowButtonsLabelTrimmed();
    MenuLabelsDistinct();
    ghost var st0 := bot.Snapshot();
    var r := bot.HandleMessage(user, EditLabel);
    BeginEdit(st0, user);
    ghost var st1 := bot.Snapshot();
    r := bot.HandleMessage(user, raw);
    Submit(st1, user, Strip(raw));
    ghost var st2 := bot.Snapshot();
    shown := bot.HandleMessage(user, ShowListLabel);
    ShowList(st2, user);
    ghost var st3 := bot.Snapshot();
    r := bot.HandleMessage(user, ShowButtonsLabel);
    ShowButtons(st3, user);
    pending := Pending(bot.Snapshot());
  }
}
