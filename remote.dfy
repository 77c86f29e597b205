/** The remote-execution boundary of app.py: `check_hostname` and
    `run_ssh_command`. Name resolution and the SSH session are network I/O,
    so they enter the model as parameters: a resolver saying whether a name
    resolves, and a transport giving the decoded standard output of a
    command, or `None` when the session raised. */
module Remote {

  import opened Options
  import opened PyStr

  /** What the core sees of remote execution: host and command to the
      command's output, or `None`. */
  type Executor = (string, string) -> Option<string>

  /** `run_ssh_command(hostname, command)`: nothing is attempted for a name
      that does not resolve; otherwise the transport's output, stripped of
      surrounding whitespace, or `None` when the session failed. */
  function RunSshCommand(resolves: string -> bool, transport: (string, string) -> Option<string>,
                         hostname: string, command: string): (r: Option<string>)
    ensures !resolves(hostname) ==> r == None
    ensures resolves(hostname) ==> (r.Some? <==> transport(hostname, command).Some?)
    ensures r.Some? ==> Stripped(r.value) && |r.value| <= |transport(hostname, command).value|
  {
    if !resolves(hostname) then None
    else
      match transport(hostname, command)
      case None => None
      case Some(out) => Some(Strip(out))
  }

  /** The executor that app.py's request handlers call. */
  function SshExecutor(resolves: string -> bool, transport: (string, string) -> Option<string>): (exec: Executor)
    ensures forall hostname, command :: !resolves(hostname) ==> exec(hostname, command) == None
    ensures forall hostname, command :: exec(hostname, command).Some? ==> Stripped(exec(hostname, command).value)
  {
    (hostname, command) => RunSshCommand(resolves, transport, hostname, command)
  }

  /** Python truthiness of `run_ssh_command`'s result: `None` and the empty
      string are false. */
  predicate Truthy(out: Option<string>)
    ensures Truthy(out) <==> out != None && out != Some("")
  {
    out.Some? && out.value != ""
  }

  /** The answer for an unresolvable host does not depend on the transport:
      no session is opened for it. */
  lemma UnresolvedIgnoresTransport(resolves: string -> bool, t1: (string, string) -> Option<string>,
                                   t2: (string, string) -> Option<string>, hostname: string, command: string)
    requires !resolves(hostname)
    ensures RunSshCommand(resolves, t1, hostname, command) == RunSshCommand(resolves, t2, hostname, command) == None
  {
  }

  /** Output padded with whitespace arrives trimmed. */
  lemma OutputIsTrimmed(resolves: string -> bool, transport: (string, string) -> Option<string>,
                        hostname: string, command: string, pre: string, body: string, post: string)
    requires resolves(hostname)
    requires transport(hostname, command) == Some(pre + body + post)
    requires AllSpace(pre) && AllSpace(post) && Stripped(body)
    ensures RunSshCommand(resolves, transport, hostname, command) == Some(body)
  {
    StripOf(pre, body, post);
  }
}
