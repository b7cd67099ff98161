/**
 * The command runner as the rest of the CLI layer sees it
 * (src/lib/vercel-cli/types.ts). Spawning a process is not modelled: a
 * caller receives the command it would run and an outcome supplied from
 * outside, either the captured output or the error the runner throws.
 */
module CliRunner {
  import opened Wrappers

  /** `VercelCliErrorCode`. */
  datatype ErrorCode = CliNotFound | CliTimeout | CliNonZeroExit | CliIoError

  /** `VercelCliCommand`, without the environment (never set by the modelled callers). */
  datatype Command = Command(
    executable: string,
    args: seq<string>,
    cwd: Option<string>,
    timeoutMs: nat,
    stdinText: Option<string>)

  /**
   * What `runner.run` does with one command: it resolves with the output,
   * rejects with a `VercelCliError` carrying a code and a message, or rejects
   * with some other error.
   */
  datatype Outcome =
    | Succeeded(stdout: string, stderr: string)
    | CliFailed(code: ErrorCode, message: string)
    | OtherError
}
