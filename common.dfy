/** Definitions shared by every part of the shell model. */
module Common {

  /** A value that may be missing: a redirection target, a message that is not printed. */
  datatype Option<+T> = None | Some(value: T)

  /** Size of the input buffer: the longest accepted command plus room for pid expansion. */
  const MAXLINE: nat := 2060

  /** Capacity of the argument arrays, the redirection file-name buffers and the job table. */
  const MAXARG: nat := 512
}
