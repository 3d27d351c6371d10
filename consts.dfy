/** utils/consts.cs: the PL/pgSQL block that creates a list partition of
    `public.tickets` unless a table of that name already exists in schema
    `public`. The statement is modelled by its effect on the partitions. */
module Consts {
  import opened Wrappers

  /** The partitions of `public.tickets`: table name -> the single event id
      its `FOR VALUES IN (...)` list holds. */
  type Partitions = map<string, int>

  /** PostgreSQL's refusal of a second partition for a list value that an
      existing partition already holds. */
  const OverlapError := "partition would overlap an existing partition"

  /** The statement built by `CreatePartitionIfNotExistsSQL`: it declares
      `partition_name` as the given name and carries the event id. */
  datatype PartitionStatement = CreatePartitionIfNotExistsSQL(partitionName: string, eventId: int)

  /** Running the statement: nothing happens when a table called
      `partitionName` exists; otherwise `public."partitionName"` is created
      as the partition of `public.tickets` holding exactly `eventId`, which
      the database refuses if another partition already holds that value. */
  function Execute(stmt: PartitionStatement, parts: Partitions): (r: Result<Partitions>)
    ensures r.Err? <==> stmt.partitionName !in parts && stmt.eventId in parts.Values
    ensures r.Ok? ==> parts.Keys <= r.value.Keys <= parts.Keys + {stmt.partitionName}
    ensures r.Ok? ==> forall n :: n in parts ==> r.value[n] == parts[n]
    ensures r.Ok? ==> stmt.partitionName in r.value
    ensures r.Ok? && stmt.partitionName !in parts ==> r.value[stmt.partitionName] == stmt.eventId
  {
    if stmt.partitionName in parts then Ok(parts)
    else if stmt.eventId in parts.Values then Err(OverlapError)
    else Ok(parts[stmt.partitionName := stmt.eventId])
  }

  /** Running the statement a second time has no further effect. */
  lemma ExecuteIdempotent(stmt: PartitionStatement, parts: Partitions)
    ensures Execute(stmt, parts).Ok? ==>
      Execute(stmt, Execute(stmt, parts).value) == Execute(stmt, parts)
  {
  }
}
