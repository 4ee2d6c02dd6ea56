// What an ACP client and its agent say to each other, as parsed values
// (rust/crates/oga-acp/src/session.rs).
module Protocol {
  import opened Basics

  datatype Info = Info(name: string, version: string)

  datatype Agent = Agent(
    version: int,
    info: Option<Info>,
    authMethods: set<string>,
    canLoad: bool,
    canResume: bool)

  // One session setting the agent advertises: its value and the ones to choose from.
  // A setting of another kind than a list of choices has none.
  datatype Setting = Select(id: string, current: string, values: seq<string>) | OtherKind(id: string)

  datatype Method =
    | Initialize
    | Authenticate(methodId: string)
    | SessionNew
    | SessionLoad
    | SessionResume
    | SetOption(id: string, value: string)
    | Prompt
    | Steer

  // A result, read as what the caller asked for, or the agent's own error.
  datatype Reply = Result(value: Value) | Failure(authRequired: bool)

  datatype Value =
    | Agreed(agent: Agent)
    | Opened(offered: seq<Setting>)
    | Stopped(word: string)       // the end of a turn, as the agent spells it
    | Took(outcome: string)       // what became of an instruction
    | Other
}
