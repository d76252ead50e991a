/**
 * The chat history shared by the two front ends (interface.py and
 * console.py): a list of `{"role": ..., "content": ...}` entries, and the
 * `"<label>: <content>\n"` lines the conversation context is written in.
 */
module Chat {

  /** The two roles an entry can have, `"user"` and `"assistant"`. */
  datatype Role = User | Assistant

  datatype Message = Message(role: Role, content: string)

  /** One line of the conversation context: the label, a colon and a space, the text and
      a newline. */
  function Line(tag: string, content: string): (r: string)
    ensures |r| == |tag| + |content| + 3
  {
    tag + ": " + content + "\n"
  }

  /** The first index of the slice `xs[-back:]` of a list of length `n`: Python clamps a
      negative start that reaches before the list to 0. */
  function RecentStart(n: nat, back: nat): (i: nat)
    ensures i <= n
    ensures n >= back ==> n - i == back
    ensures n < back ==> i == 0
  {
    if n >= back then n - back else 0
  }
}
