/** The output text: appended to by a commit, shortened by delete, emptied by clear. */
module Buffer {

  /** `text.slice(0, -1)`: the text without its last character; the empty
      text stays empty. */
  function DropLast(s: string): (r: string)
    ensures s == [] ==> r == []
    ensures s != [] ==> r + [s[|s| - 1]] == s
  {
    if s == [] then [] else s[..|s| - 1]
  }

  /** Deleting undoes appending. */
  lemma DropLastUndoesAppend(s: string, c: char)
    ensures DropLast(s + [c]) == s
  {
  }
}
