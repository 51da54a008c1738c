/** Values shared by the two revisions of the activity. */
module Common {

  /** A Java reference that may be null: `None` stands for `null`. */
  datatype Option<T> = None | Some(value: T)

  /** The unchecked exceptions the modelled code can run into and does not catch. */
  datatype Fault = NullPointerException | IllegalArgumentException

  /** The value of a Java expression, or the exception its evaluation throws. */
  datatype Result<T> = Success(value: T) | Failure(fault: Fault)

  /** The imported executable, `selectedBinary`, as the execute button sees
      it: its `getAbsolutePath()` and what `exists()` answers at that moment. */
  datatype Binary = Binary(absolutePath: string, fileExists: bool)

  /** The selected file, known by its path, together with what the file
      system answers to `exists()` when the button is pressed. */
  function AsSeen(selected: Option<string>, fileExists: bool): Option<Binary> {
    if selected.Some? then Some(Binary(selected.value, fileExists)) else None
  }

  /** A binary is put in front of the command only when one is selected and its file exists. */
  predicate Usable(selected: Option<Binary>) {
    selected.Some? && selected.value.fileExists
  }
}
