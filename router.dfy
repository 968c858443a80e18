/** The `InteractionCreate` listener (main.js lines 80-111): classify one interaction,
    resolve it against the registry, invoke the handler, and isolate failures.

    What the handlers and the platform do is not visible to the dispatcher, so it enters as
    a parameter: whether the invoked handler returns or throws (and, if it throws, whether
    it had already replied to or deferred the interaction), and whether the platform
    accepts a reply the router sends. A run is summarised by the effects the router causes
    (reply attempts and handler invocations, in order) and how the listener ends. */
module Router {
  import opened Wrappers
  import opened Handlers

  /** An inbound interaction, by the type test that recognises it. */
  datatype Interaction =
    | ChatInputCommand(commandName: string)
    | Button(customId: string)
    | SelectMenu(customId: string)
    | Autocomplete(commandName: string)
    | OtherInteraction

  /** The two tables the loader built; the router only reads them. */
  datatype Registry = Registry(commands: map<string, CommandModule>, components: map<string, ComponentModule>)

  /** Which handler code runs: a command's `execute`, a component's `execute` (by the key
      it was found under) or a command's `autocomplete`. */
  datatype Handler =
    | CommandHandler(name: string)
    | ComponentHandler(key: string)
    | AutocompleteHandler(name: string)

  datatype Reply = Reply(content: string, ephemeral: bool)

  const CommandNotFound := Reply("Comando não encontrado.", true)
  const ComponentNotFound := Reply("Handler de componente não encontrado.", true)
  const ErrorReply := Reply("Ocorreu um erro ao processar sua interação.", true)

  datatype Effect = ReplyAttempt(reply: Reply) | Invocation(handler: Handler)

  /** What resolution decides: nothing to do, a not-found reply, or a handler to run. */
  datatype Action = Ignore | ReplyNotFound(reply: Reply) | Invoke(handler: Handler)

  /** How the invoked handler ends; a throw carries the interaction's `replied` and
      `deferred` flags at that moment. */
  datatype HandlerRun = Returned | Threw(replied: bool, deferred: bool)

  /** The behaviour of everything outside the dispatcher for one interaction. */
  datatype Env = Env(handlerRun: HandlerRun, replyAccepted: bool)

  /** The interaction's flags when an error reaches the `catch` block. */
  datatype Flags = Flags(replied: bool, deferred: bool)

  /** How the listener ends: normally, through its `catch` block, or with an error that
      leaves it (a rejected promise nobody handles). */
  datatype Outcome = Completed | Failed | Escaped

  datatype Handling = Handling(trace: seq<Effect>, outcome: Outcome)

  /** `customId.split(':')[0]`: the part of the token before its first `:`, or the whole
      token when it has none. */
  function PrefixBeforeColon(customId: string): (prefix: string)
    ensures prefix <= customId
    ensures ':' !in prefix
    ensures prefix == customId || customId[|prefix|] == ':'
  {
    if customId == "" || customId[0] == ':' then ""
    else [customId[0]] + PrefixBeforeColon(customId[1..])
  }

  /** The three properties above pin the prefix down: any colon-free prefix of the token
      that ends at its end or at a `:` is the split's first part. */
  lemma PrefixUnique(customId: string, p: string)
    requires p <= customId && ':' !in p
    requires p == customId || customId[|p|] == ':'
    ensures p == PrefixBeforeColon(customId)
  {
  }

  /** The component lookup: an exact match on the whole token, and only on a miss the
      part before the first `:`. The result is the key the handler was found under. */
  function ResolveComponent(components: map<string, ComponentModule>, customId: string): (key: Option<string>)
    ensures key.Some? ==> key.value in components
    ensures customId in components ==> key == Some(customId)
    ensures key.Some? && key.value != customId ==>
              customId !in components && key.value + ":" <= customId && ':' !in key.value
    ensures key.None? ==> customId !in components && PrefixBeforeColon(customId) !in components
  {
    if customId in components then Some(customId)
    else
      var prefix := PrefixBeforeColon(customId);
      if prefix in components then Some(prefix) else None
  }

  /** A token `key:rest` reaches the handler registered as `key` when nothing is
      registered under the whole token. */
  lemma PrefixFallback(components: map<string, ComponentModule>, key: string, rest: string)
    requires ':' !in key && key in components
    requires key + ":" + rest !in components
    ensures ResolveComponent(components, key + ":" + rest) == Some(key)
  {
    var token := key + ":" + rest;
    assert key <= token && token[|key|] == ':';
    PrefixUnique(token, key);
  }

  /** A token without `:` is its own prefix, so the second lookup repeats the first and
      only an exact match resolves. */
  lemma NoColonExactOnly(components: map<string, ComponentModule>, customId: string)
    requires ':' !in customId
    ensures PrefixBeforeColon(customId) == customId
    ensures ResolveComponent(components, customId).Some? <==> customId in components
  {
  }

  /** Whether `h` names a handler that exists in the registry. */
  predicate Registered(reg: Registry, h: Handler)
  {
    match h
    case CommandHandler(name) => name in reg.commands
    case ComponentHandler(key) => key in reg.components
    case AutocompleteHandler(name) => name in reg.commands && reg.commands[name].hasAutocomplete
  }

  /** Classification and resolution (lines 82-102). */
  function Dispatch(reg: Registry, ev: Interaction): (a: Action)
    ensures a.Invoke? ==> Registered(reg, a.handler)
    ensures ev.OtherInteraction? ==> a == Ignore
    // a command runs exactly when its name is registered, otherwise the command not-found reply
    ensures ev.ChatInputCommand? && ev.commandName in reg.commands ==>
              a == Invoke(CommandHandler(ev.commandName))
    ensures ev.ChatInputCommand? && ev.commandName !in reg.commands ==>
              a == ReplyNotFound(CommandNotFound)
    // a component runs exactly when resolution finds a key, otherwise the component not-found reply
    ensures (ev.Button? || ev.SelectMenu?) && ResolveComponent(reg.components, ev.customId).Some? ==>
              a == Invoke(ComponentHandler(ResolveComponent(reg.components, ev.customId).value))
    ensures (ev.Button? || ev.SelectMenu?) && ResolveComponent(reg.components, ev.customId).None? ==>
              a == ReplyNotFound(ComponentNotFound)
    // autocomplete runs exactly when the command exists and offers it, and is silent otherwise
    ensures ev.Autocomplete? && Registered(reg, AutocompleteHandler(ev.commandName)) ==>
              a == Invoke(AutocompleteHandler(ev.commandName))
    ensures ev.Autocomplete? && !Registered(reg, AutocompleteHandler(ev.commandName)) ==>
              a == Ignore
  {
    match ev
    case ChatInputCommand(name) =>
      if name in reg.commands then Invoke(CommandHandler(name)) else ReplyNotFound(CommandNotFound)
    case Button(customId) =>
      DispatchComponent(reg, customId)
    case SelectMenu(customId) =>
      DispatchComponent(reg, customId)
    case Autocomplete(name) =>
      if name in reg.commands && reg.commands[name].hasAutocomplete then Invoke(AutocompleteHandler(name)) else Ignore
    case OtherInteraction =>
      Ignore
  }

  function DispatchComponent(reg: Registry, customId: string): Action
  {
    match ResolveComponent(reg.components, customId)
    case Some(key) => Invoke(ComponentHandler(key))
    case None => ReplyNotFound(ComponentNotFound)
  }

  /** The error, if any, that reaches the `catch` block once `a` has been carried out (the
      handler is awaited; so is the not-found reply in the corrected listener), with the
      interaction's flags at that moment. A reply the platform refuses leaves both flags
      unset. */
  function Raised(a: Action, env: Env): Option<Flags>
  {
    match a
    case Ignore => None
    case ReplyNotFound(_) => if env.replyAccepted then None else Some(Flags(false, false))
    case Invoke(_) =>
      match env.handlerRun
      case Returned => None
      case Threw(replied, deferred) => Some(Flags(replied, deferred))
  }

  function Performed(a: Action): seq<Effect>
  {
    match a
    case Ignore => []
    case ReplyNotFound(r) => [ReplyAttempt(r)]
    case Invoke(h) => [Invocation(h)]
  }

  function ReplyCount(trace: seq<Effect>): nat
  {
    if trace == [] then 0
    else (if trace[0].ReplyAttempt? then 1 else 0) + ReplyCount(trace[1..])
  }

  lemma {:induction false} ReplyCountAppend(s: seq<Effect>, t: seq<Effect>)
    ensures ReplyCount(s + t) == ReplyCount(s) + ReplyCount(t)
  {
    if s != [] {
      assert (s + t)[1..] == s[1..] + t;
      ReplyCountAppend(s[1..], t);
    } else {
      assert s + t == t;
    }
  }

  /** The listener with every failure isolated: the `catch` block logs, and sends the
      generic private reply only when the interaction has been neither replied to nor
      deferred; a failure of that reply is swallowed. */
  function Handle(reg: Registry, ev: Interaction, env: Env): (h: Handling)
    // no error ever leaves the listener
    ensures h.outcome != Escaped
    ensures h.outcome == Failed <==> Raised(Dispatch(reg, ev), env).Some?
    // every reply the router sends is private
    ensures forall e <- h.trace :: e.ReplyAttempt? ==> e.reply.ephemeral
    // only the resolved handler runs, at most once, and only if it is registered
    ensures forall e <- h.trace :: e.Invocation? ==> Dispatch(reg, ev) == Invoke(e.handler) && Registered(reg, e.handler)
    ensures |h.trace| <= 2
    // the resolved handler runs exactly once, and the fallback, if any, comes after it
    ensures Dispatch(reg, ev).Invoke? ==>
              h.trace == [Invocation(Dispatch(reg, ev).handler)] +
                         (if env.handlerRun.Threw? && !env.handlerRun.replied && !env.handlerRun.deferred
                          then [ReplyAttempt(ErrorReply)] else [])
    // a refused not-found reply is followed by the fallback, a delivered one by nothing
    ensures Dispatch(reg, ev).ReplyNotFound? ==>
              h.trace == [ReplyAttempt(Dispatch(reg, ev).reply)] +
                         (if env.replyAccepted then [] else [ReplyAttempt(ErrorReply)])
    // a lookup miss gives the not-found reply and runs nothing; if it is delivered, that is all
    ensures Dispatch(reg, ev).ReplyNotFound? ==>
              |h.trace| >= 1 && h.trace[0] == ReplyAttempt(Dispatch(reg, ev).reply) &&
              (env.replyAccepted ==> h.trace == [ReplyAttempt(Dispatch(reg, ev).reply)] && h.outcome == Completed)
    // nothing to do means no effect at all
    ensures Dispatch(reg, ev) == Ignore ==> h.trace == [] && h.outcome == Completed
    // the fallback is attempted exactly when an error was caught on an unanswered interaction
    ensures ReplyAttempt(ErrorReply) in h.trace <==>
              Raised(Dispatch(reg, ev), env).Some? &&
              !Raised(Dispatch(reg, ev), env).value.replied && !Raised(Dispatch(reg, ev), env).value.deferred
    // when replies are delivered, the router answers at most once
    ensures env.replyAccepted ==> ReplyCount(h.trace) <= 1
  {
    var a := Dispatch(reg, ev);
    match Raised(a, env)
    case None => Handling(Performed(a), Completed)
    case Some(f) =>
      var trace := Performed(a) + (if f.replied || f.deferred then [] else [ReplyAttempt(ErrorReply)]);
      ReplyCountAppend(Performed(a), if f.replied || f.deferred then [] else [ReplyAttempt(ErrorReply)]);
      Handling(trace, Failed)
  }

  /** The listener as written: on a lookup miss it executes `return interaction.reply(...)`
      without `await`, so the `try` block is left before that reply settles and a refused
      reply rejects the listener's promise instead of reaching the `catch` block. */
  function HandleAsWritten(reg: Registry, ev: Interaction, env: Env): (h: Handling)
    ensures h.outcome == Escaped <==> Dispatch(reg, ev).ReplyNotFound? && !env.replyAccepted
    ensures h.outcome == Escaped ==> h.trace == [ReplyAttempt(Dispatch(reg, ev).reply)]
  {
    var a := Dispatch(reg, ev);
    if a.ReplyNotFound? && !env.replyAccepted then Handling([ReplyAttempt(a.reply)], Escaped)
    else Handle(reg, ev, env)
  }

  /** As written, an error leaves the listener exactly when a lookup misses and the
      platform refuses the not-found reply; then no fallback is tried. Otherwise the
      written listener behaves as the isolated one. */
  lemma NotFoundReplyEscapes(reg: Registry, ev: Interaction, env: Env)
    ensures HandleAsWritten(reg, ev, env).outcome == Escaped <==>
              Dispatch(reg, ev).ReplyNotFound? && !env.replyAccepted
    ensures HandleAsWritten(reg, ev, env).outcome == Escaped ==>
              ReplyAttempt(ErrorReply) !in HandleAsWritten(reg, ev, env).trace
    ensures HandleAsWritten(reg, ev, env).outcome != Escaped ==>
              HandleAsWritten(reg, ev, env) == Handle(reg, ev, env)
  {
  }

  /** The concrete case: `/ping` with no `ping` command, on an interaction whose reply the
      platform refuses (for instance, one that has expired). */
  lemma UnknownPingOnExpiredInteraction()
    ensures HandleAsWritten(Registry(map[], map[]), ChatInputCommand("ping"), Env(Returned, false)).outcome == Escaped
    ensures Handle(Registry(map[], map[]), ChatInputCommand("ping"), Env(Returned, false)) ==
              Handling([ReplyAttempt(CommandNotFound), ReplyAttempt(ErrorReply)], Failed)
  {
  }

  /** The listener itself, step by step with its early returns and its `catch` block,
      with the not-found reply awaited. */
  method HandleInteraction(reg: Registry, ev: Interaction, env: Env) returns (trace: seq<Effect>, outcome: Outcome)
    ensures Handling(trace, outcome) == Handle(reg, ev, env)
  {
    trace := [];
    var caught: Option<Flags> := None;
    match ev {
      case ChatInputCommand(name) =>
        if name !in reg.commands {
          trace := trace + [ReplyAttempt(CommandNotFound)];
          if env.replyAccepted {
            return trace, Completed;
          }
          caught := Some(Flags(false, false));
        } else {
          trace := trace + [Invocation(CommandHandler(name))];
          if env.handlerRun.Threw? {
            caught := Some(Flags(env.handlerRun.replied, env.handlerRun.deferred));
          }
        }
      case Button(customId) =>
        trace, caught := RunComponent(reg, customId, env);
      case SelectMenu(customId) =>
        trace, caught := RunComponent(reg, customId, env);
      case Autocomplete(name) =>
        if name in reg.commands && reg.commands[name].hasAutocomplete {
          trace := trace + [Invocation(AutocompleteHandler(name))];
          if env.handlerRun.Threw? {
            caught := Some(Flags(env.handlerRun.replied, env.handlerRun.deferred));
          }
        }
      case OtherInteraction =>
    }
    if caught.None? {
      return trace, Completed;
    }
    if !caught.value.replied && !caught.value.deferred {
      // the outcome of this reply does not matter: its failure is swallowed
      trace := trace + [ReplyAttempt(ErrorReply)];
    }
    outcome := Failed;
  }

  /** Lines 88-95: the two-step lookup, then the not-found reply or the handler. */
  method RunComponent(reg: Registry, customId: string, env: Env) returns (trace: seq<Effect>, caught: Option<Flags>)
    ensures trace == Performed(DispatchComponent(reg, customId))
    ensures caught == Raised(DispatchComponent(reg, customId), env)
  {
    var handler: Option<string> := None;
    if customId in reg.components {
      handler := Some(customId);
    }
    if handler.None? {
      var prefix := PrefixBeforeColon(customId);
      if prefix in reg.components {
        handler := Some(prefix);
      }
    }
    if handler.None? {
      trace := [ReplyAttempt(ComponentNotFound)];
      caught := if env.replyAccepted then None else Some(Flags(false, false));
      return;
    }
    trace := [Invocation(ComponentHandler(handler.value))];
    caught := None;
    if env.handlerRun.Threw? {
      caught := Some(Flags(env.handlerRun.replied, env.handlerRun.deferred));
    }
  }
}
