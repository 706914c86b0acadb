/** The values passed between the steps of the generator. */
module Records {

  /** One discovered events file: the dict built by `walk_bids_root`, entities kept verbatim ("sub-01"). */
  datatype FileRecord = FileRecord(
    filePath: string,
    fname: string,
    subject: string,
    session: string,
    run: string,
    task: string)

  /** The exceptions the generator can raise. */
  datatype Error =
    /** IndexError: an events file name with fewer than four `_`-separated parts. */
    | MalformedFileName(dirpath: string, filename: string)
    /** IndexError: a task entity without a `-`, so `split('-')[1]` does not exist. */
    | MalformedTaskEntity(task: string)
    /** AssertionError: the task id is not a key of the task-description table. */
    | MissingTaskDescription(taskId: string)
    /** AssertionError: the task id is not a key of the column-description table. */
    | MissingColumnDescription(taskId: string)
}
