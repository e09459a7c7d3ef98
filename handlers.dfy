/** What the router exchanges with handler code it loads at run time: requests,
    responses, the module a transpiled `route.ts` evaluates to, and what calling
    one of its exports does. Loading and running foreign code are parameters
    (`Loader`, `Invoker`); only their results are modelled. */
module Handlers {
  import opened Wrappers

  /** A request as the dispatcher reads it: `verb` is `req.method` as sent,
      `path` the `pathname` of `req.url`. */
  datatype Request = Request(verb: string, path: string)

  /** `contentType` is `None` where the runtime picks the default for a text
      body. */
  datatype Response = Response(status: int, contentType: Option<string>, body: string)

  /** What `await response.json()` yields when it succeeds: the body's
      top-level keys in `Object.keys` order, each with its value as text. */
  type JsonObject = seq<(string, string)>

  /** The outcome of calling a handler synchronously: it throws (carrying
      `String(e)`), returns nothing, or returns a response whose body decodes
      (`Some`) or does not decode (`None`) to a JSON object. */
  datatype Outcome =
    | Threw(error: string)
    | ReturnedNothing
    | Returned(response: Response, json: Option<JsonObject>)

  /** The named parameters a handler receives. */
  type Params = map<string, string>

  /** Functions of loaded code are known by an opaque identity. */
  type FunctionId = nat

  /** One export of a loaded module: a function, or some other value. */
  datatype Export = Function(id: FunctionId) | NotAFunction

  /** A loaded module: its exports by name (`Object.keys(module)` is the key
      set). */
  type Module = map<string, Export>

  /** `import("data:application/javascript," + code)`: the module, or `None`
      where the import throws. */
  type Loader = string -> Option<Module>

  /** What calling a function of loaded code with `(req, { params })` does. */
  type Invoker = (FunctionId, Request, Params) -> Outcome

  /** `module[name]`: the export, `None` standing for `undefined`. */
  function Lookup(m: Module, name: string): (e: Option<Export>)
    ensures e.Some? <==> name in m
    ensures e.Some? ==> e.value == m[name]
  {
    if name in m then Some(m[name]) else None
  }
}
