/**
 * The chat client's terminal interface: the bubbletea model (`message`,
 * `err`, `width`, `height`), its `Update` transition and the choice that
 * `View` makes between the error screen and the message box.
 */
module Tui {
  import opened Nullable

  /** The UI state; a non-nil Go error is held by its text. */
  datatype Model = Model(message: string, err: Option<string>, width: int, height: int)

  /** The messages `Update` is given. */
  datatype Msg =
    | WindowSize(width: int, height: int)  // tea.WindowSizeMsg
    | ServerText(text: string)              // serverMsg
    | Failure(err: Option<string>)          // errMsg, whose error may be nil
    | Key(name: string)                     // tea.KeyMsg, by its String() form
    | Unrecognised                          // any other tea.Msg

  /** The command `Update` returns: nil or tea.Quit. */
  datatype Cmd = NoCmd | Quit

  datatype Transition = Transition(model: Model, cmd: Cmd)

  /** What `View` draws: the error line, or the message box of the given size. */
  datatype Screen = ErrorScreen(text: string) | MessageBox(content: string, boxWidth: int, boxHeight: int)

  /** NewModel: Go's zero value of the model. */
  function NewModel(): (m: Model)
    ensures m.message == "" && m.err == None && m.width == 0 && m.height == 0
  {
    Model("", None, 0, 0)
  }

  /** model.Update: a copy of the model with at most the fields the message carries changed. */
  function Update(m: Model, msg: Msg): (r: Transition)
    ensures r.model.message == (if msg.ServerText? then msg.text else m.message)
    ensures r.model.err == (if msg.Failure? then msg.err else m.err)
    ensures r.model.width == (if msg.WindowSize? then msg.width else m.width)
    ensures r.model.height == (if msg.WindowSize? then msg.height else m.height)
    ensures r.cmd == Quit <==> msg == Key("q")
  {
    match msg
    case WindowSize(w, h) => Transition(m.(width := w, height := h), NoCmd)
    case ServerText(text) => Transition(m.(message := text), NoCmd)
    case Failure(e) => Transition(m.(err := e), NoCmd)
    case Key(name) => if name == "q" then Transition(m, Quit) else Transition(m, NoCmd)
    case Unrecognised => Transition(m, NoCmd)
  }

  /** Keys, and messages of no known kind, leave the model as it was. */
  lemma KeysAndUnknownChangeNothing(m: Model, msg: Msg)
    requires msg.Key? || msg.Unrecognised?
    ensures Update(m, msg).model == m
    ensures Update(m, msg).cmd == (if msg == Key("q") then Quit else NoCmd)
  {
  }

  /** Every message kind that carries data overwrites its fields, so delivering it twice is delivering it once. */
  lemma UpdateIdempotent(m: Model, msg: Msg)
    ensures Update(Update(m, msg).model, msg) == Update(m, msg)
  {
  }

  /** model.View, up to rendering: an error wins over the message. */
  function View(m: Model): (s: Screen)
    ensures m.err.Some? <==> s.ErrorScreen?
    ensures m.err.Some? ==> s.text == "Error: " + m.err.value + "\n"
    ensures m.err.None? ==> s.content == "Message: " + m.message && s.boxWidth == m.width - 3 && s.boxHeight == m.height - 5
  {
    if m.err.Some? then ErrorScreen("Error: " + m.err.value + "\n")
    else MessageBox("Message: " + m.message, m.width - 3, m.height - 5)
  }

  /** While an error is set, neither a server message nor a resize changes what is shown. */
  lemma ErrorTakesPrecedence(m: Model, msg: Msg)
    requires m.err.Some? && (msg.ServerText? || msg.WindowSize?)
    ensures View(Update(m, msg).model) == View(m)
  {
  }
}
