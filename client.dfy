/** The lookup client (cache.p4app/client.py): one request, one reply, one
    printed line. The network round trip is a parameter. */
module Client {
  import opened Wrappers
  import opened Numerals
  import opened Protocol

  /** Ways the client ends without printing an answer. */
  datatype ClientError =
    | Usage(message: string)   // wrong argument count: usage printed, exit status 1
    | InvalidKey               // KEY is not an integer: int() raises ValueError
    | KeyMismatch              // the reply echoes another key: the assertion fails

  /** What a reply means for the outstanding request. */
  datatype Answer = Mismatch | Found(value: int) | NotFound

  /** The line printed when the argument count is wrong. */
  function UsageMessage(prog: string): string
  {
    "Usage: " + prog + " HOST KEY"
  }

  /** Checks the arguments (HOST and KEY, after the program name `prog`) and
      builds the request to send to HOST. */
  function Prepare(prog: string, args: seq<string>): (r: Result<(string, Request), ClientError>)
    ensures |args| != 2 ==> r == Failure(Usage(UsageMessage(prog)))
    ensures |args| == 2 ==> (r.Success? <==> ParseInt(args[1]).Some?)
    ensures r.Success? ==> |args| == 2 && r.value.0 == args[0] && ParseInt(args[1]) == Some(r.value.1.key)
    ensures r.Failure? ==> r.error.Usage? || r.error.InvalidKey?
    ensures |args| == 2 && r.Failure? ==> r.error == InvalidKey
  {
    if |args| != 2 then Failure(Usage(UsageMessage(prog)))
    else match ParseInt(args[1])
      case Some(key) => Success((args[0], Request(key)))
      case None => Failure(InvalidKey)
  }

  /** Judges a reply: it must echo the request's key; a non-zero `valid`
      means the value was found. */
  function Interpret(req: Request, res: Response): (a: Answer)
    ensures a.Mismatch? <==> res.key != req.key
    ensures a.Found? <==> res.key == req.key && res.valid != 0
    ensures a.NotFound? <==> res.key == req.key && res.valid == 0
    ensures a.Found? ==> a.value == res.value
  {
    if res.key != req.key then Mismatch
    else if res.valid != 0 then Found(res.value)
    else NotFound
  }

  /** The line the client prints for an answer: the decimal value, or
      `NOTFOUND`; a mismatched reply prints nothing. */
  function Render(a: Answer): (out: Result<string, ClientError>)
    ensures out.Success? <==> !a.Mismatch?
    ensures a.Mismatch? ==> out == Failure(KeyMismatch)
    ensures a.Found? ==> out == Success(ShowInt(a.value))
    ensures a.NotFound? ==> out == Success("NOTFOUND")
  {
    match a
    case Found(v) => Success(ShowInt(v))
    case NotFound => Success("NOTFOUND")
    case Mismatch => Failure(KeyMismatch)
  }

  /** The printed line gives the answer back: reading it as an integer
      yields the found value, and `NOTFOUND` reads as no integer, so a
      found value is never confused with a miss. */
  lemma RenderReadsBack(a: Answer)
    requires !a.Mismatch?
    ensures Render(a).Success?
    ensures ParseInt(Render(a).value) == (if a.Found? then Some(a.value) else None)
  {
    if a.Found? {
      ParseShowInt(a.value);
    } else {
      assert Render(a).value[0] == 'N';
    }
  }

  /** One run of the client: what it sent (to which host) and what it
      printed or why it stopped. */
  datatype Run = Run(sent: Option<(string, Request)>, printed: Result<string, ClientError>)

  /** The whole client. `network(host, req)` stands for sending `req` to
      HOST and receiving the reply. */
  function RunClient(prog: string, args: seq<string>, network: (string, Request) -> Response): (run: Run)
    ensures run.sent.None? <==> Prepare(prog, args).Failure?
    ensures run.sent.None? ==> run.printed.Failure? && !run.printed.error.KeyMismatch?
    ensures run.sent.None? ==> run.printed == Failure(Prepare(prog, args).error)
    ensures run.sent.Some? ==>
              |args| == 2 && run.sent.value.0 == args[0] && ParseInt(args[1]) == Some(run.sent.value.1.key)
    ensures run.sent.Some? ==>
              var (host, req) := run.sent.value;
              var res := network(host, req);
              (res.key != req.key ==> run.printed == Failure(KeyMismatch))
              && (res.key == req.key && res.valid != 0 ==> run.printed == Success(ShowInt(res.value)))
              && (res.key == req.key && res.valid == 0 ==> run.printed == Success("NOTFOUND"))
  {
    match Prepare(prog, args)
    case Failure(e) => Run(None, Failure(e))
    case Success((host, req)) => Run(Some((host, req)), Render(Interpret(req, network(host, req))))
  }

  /** The exit status: 0 after printing an answer; 1 after the usage
      message (`sys.exit(1)`) and after an uncaught `ValueError` or
      `AssertionError`. */
  function ExitStatus(run: Run): (status: int)
    ensures status == 0 <==> run.printed.Success?
    ensures run.printed.Failure? ==> status == 1
  {
    if run.printed.Success? then 0 else 1
  }

  /** With anything but exactly HOST and KEY, the client prints the usage
      message, sends nothing and exits with status 1. */
  lemma UsageExits(prog: string, args: seq<string>, network: (string, Request) -> Response)
    requires |args| != 2
    ensures RunClient(prog, args, network) == Run(None, Failure(Usage(UsageMessage(prog))))
    ensures ExitStatus(RunClient(prog, args, network)) == 1
  {
  }
}
