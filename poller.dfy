/**
  One wake-up of the clipboard watcher (the body of the background loop in
  timestamp_converter.go and timestamp_converter/lifecycle.go), as a step
  function. The loop itself, its one-second sleep and the clipboard service
  stay outside: the clipboard is an argument, None when the window has none.
*/
module Poller {
  import opened Results

  /**
    The epoch the tick stores, or None when it does nothing: watching is off,
    there is no clipboard, its text is empty or does not parse, or it parses to
    the current timestamp.
  */
  function PollTick(watching: bool, clipboard: Option<string>, current: int, parse: string -> Result<int>): (r: Option<int>)
    ensures r.Some? <==>
      && watching && clipboard.Some? && clipboard.value != ""
      && parse(clipboard.value).Ok? && parse(clipboard.value).value != current
    ensures r.Some? ==> r.value == parse(clipboard.value).value && r.value != current
  {
    if !watching then None
    else if clipboard.None? then None
    else if clipboard.value == "" then None
    else
      match parse(clipboard.value)
      case Err(_) => None
      case Ok(t) => if t == current then None else Some(t)
  }

  /** A tick never stores the value already there, so a second tick on the same clipboard does nothing. */
  lemma TickSettles(watching: bool, clipboard: Option<string>, current: int, parse: string -> Result<int>)
    requires PollTick(watching, clipboard, current, parse).Some?
    ensures PollTick(watching, clipboard, PollTick(watching, clipboard, current, parse).value, parse).None?
  {
  }
}
