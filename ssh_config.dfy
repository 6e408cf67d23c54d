/** `SshConfig` and `SshAuth`: what a session needs to know to connect. */
module SshConfig {
  import opened Base

  /** How the client authenticates: exactly three ways, and only a key file carries a path and a passphrase. */
  datatype SshAuth =
    | Password(password: string)
    | KeyFile(path: string, passphrase: Option<string>)
    | Agent

  datatype Config = Config(host: string, port: uint16, username: string, auth: SshAuth)

  /** `Default for SshConfig`: root on the local machine's standard SSH port, through the agent. */
  function DefaultConfig(): (c: Config)
    ensures c.host == "localhost"
    ensures c.port == 22
    ensures c.username == "root"
    ensures c.auth == Agent
  {
    Config("localhost", 22, "root", Agent)
  }
}
