/** What a handler file under commands/ or components/ exports, as the loader sees it.
    Every field the loader tests for truthiness may be missing, so each is optional here;
    the handlers' code itself is opaque and only whether it is there matters. */
module Handlers {
  import opened Wrappers

  /** The `data` of a command file (a slash-command builder). Its `name` is the registry
      key; its serialised form is opaque to the dispatcher and stands for itself in the
      registration batch. */
  datatype CommandData = CommandData(name: string, description: string)

  /** The exports of a command file: `data`, `execute` and the optional `autocomplete`. */
  datatype CommandModule = CommandModule(data: Option<CommandData>, hasExecute: bool, hasAutocomplete: bool)

  /** The exports of a component file: the routing key `id` and `execute`. */
  datatype ComponentModule = ComponentModule(id: Option<string>, hasExecute: bool)

  /** One entry of a handler directory: its file name and what loading it yields. */
  datatype DirEntry<M> = DirEntry(name: string, exports: M)
}
