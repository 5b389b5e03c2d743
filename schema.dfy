/**
 * The schema registry of src/schema_definitions.py: the exact column list
 * each cleaned table must have, in order. The first column of each list is
 * the table's key.
 */
module Schema {

  const ProviderColumns: seq<string> := ["ProviderID", "Name", "Specialty", "City"]

  const PatientColumns: seq<string> := ["PatientID", "Name", "DateOfBirth", "Gender"]

  const ClaimColumns: seq<string> := ["ClaimID", "PatientID", "ProviderID", "ServiceDate", "ClaimAmount", "Status"]

  /** The columns a claim must have non-null to be kept: its two foreign keys. */
  const ClaimRequiredColumns: seq<string> := ["PatientID", "ProviderID"]

  predicate NoDuplicates<T(==)>(s: seq<T>) {
    forall i, j :: 0 <= i < j < |s| ==> s[i] != s[j]
  }

  /** No list names a column twice. */
  lemma ColumnListsHaveNoDuplicates()
    ensures NoDuplicates(ProviderColumns)
    ensures NoDuplicates(PatientColumns)
    ensures NoDuplicates(ClaimColumns)
  {
  }

  /** Each list starts with the key column that the pipeline hands to the upsert. */
  lemma KeyColumnsComeFirst()
    ensures |ProviderColumns| > 0 && ProviderColumns[0] == "ProviderID"
    ensures |PatientColumns| > 0 && PatientColumns[0] == "PatientID"
    ensures |ClaimColumns| > 0 && ClaimColumns[0] == "ClaimID"
  {
  }

  /** The columns the claim cleaner requires are claim columns, so alignment cannot make them vanish. */
  lemma ClaimColumnsHoldRequiredColumns()
    ensures forall c :: c in ClaimRequiredColumns ==> c in ClaimColumns
    ensures "PatientID" in ClaimColumns && "ProviderID" in ClaimColumns
  {
  }
}
