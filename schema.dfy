/** The rows of the tables the core reads and writes. Each table is a map from its
    auto-increment primary key to the rest of the row. */
module Schema {
  import opened JsValues

  /** The nullable `is_deleted` column. */
  datatype DeletedFlag = NullFlag | Flag(value: int)

  /** `IFNULL(is_deleted, 0) = 0`, also written `(is_deleted = 0 OR is_deleted IS NULL)`. */
  predicate IsLive(f: DeletedFlag) { f.NullFlag? || f.value == 0 }

  /** The program columns a client may write: the write allow-list of the program handlers. */
  const EditableColumns: seq<string> :=
    ["name", "type", "training_type", "started_at", "finished_at", "copied_from"]

  /** A row of `programs`; `cols` holds the editable columns by name. */
  datatype Program = Program(
    cols: map<string, JsValue>,
    createdAt: int,
    updatedAt: int,
    createdBy: string,
    isDeleted: DeletedFlag)

  /** A column of a program row; a column never written reads as NULL. */
  function Col(p: Program, k: string): JsValue
  {
    if k in p.cols then p.cols[k] else Null
  }

  /** A row of `program_exercises`: one slot of an exercise in a program. */
  datatype Slot = Slot(
    programId: int,
    exerciseId: JsValue,
    kind: JsValue,
    sets: JsValue,
    status: JsValue,
    isDeleted: DeletedFlag,
    createdAt: int,
    updatedAt: int)

  /** A row of `training_data`: one logged workout. */
  datatype Workout = Workout(
    slotId: int,
    userId: string,
    exerciseId: JsValue,
    sets: JsValue,
    note: JsValue,
    createdAt: int,
    updatedAt: int)

  /** A row of the `exercises` catalog. */
  datatype Exercise = Exercise(
    name: string,
    description: JsValue,
    cues: JsValue,
    videoUrl: JsValue,
    imageUrl: JsValue,
    createdAt: int,
    updatedAt: int)

  /** The value a request or row holds under `k`, undefined when absent. */
  function Lookup(m: map<string, JsValue>, k: string): JsValue
  {
    if k in m then m[k] else Undefined
  }
}
