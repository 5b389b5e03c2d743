/**
 * How the pieces meet in elt_pipeline.py: the cleaned frames carry exactly
 * the columns of the tables `create_tables` declares, and loading Providers
 * and Patients before Claims lets the claims' foreign keys resolve.
 */
module Pipeline {

  import opened Frames
  import opened Schema
  import opened Load
  import opened UpsertProperties

  /** Each schema list is the column list of the corresponding table, and its first entry the key the upsert is given. */
  lemma TablesMatchSchema()
    ensures Definitions["Providers"].columns == ProviderColumns && Definitions["Providers"].key == ProviderColumns[0]
    ensures Definitions["Patients"].columns == PatientColumns && Definitions["Patients"].key == PatientColumns[0]
    ensures Definitions["Claims"].columns == ClaimColumns && Definitions["Claims"].key == ClaimColumns[0]
  {
  }

  /** A frame aligned to the claim columns is a valid statement for the Claims table and supplies all its columns. */
  lemma ClaimColumnsFitClaimsTable()
    ensures Covers(ClaimsTable, ClaimColumns) && !BadStatement(ClaimsTable, ClaimColumns)
  {
    assert ClaimColumns[1] in ClaimColumns && ClaimColumns[1] != ClaimsTable.key;
  }

  /**
   * Providers, then Patients, then Claims: when the first two loads had no
   * failures, a claim whose non-null PatientID and ProviderID occur among the
   * loaded patients and providers is written, not skipped.
   */
  lemma LoadOrderLetsClaimsResolve(store: Store, providers: seq<Row>, patients: seq<Row>, claim: Row)
    requires "Providers" in store && "Patients" in store && "Claims" in store
    requires KeyedConsistently(ClaimsTable, store["Claims"])
    requires Run(store, "Providers", ProviderColumns, true, providers).skipped == 0
    requires Run(Run(store, "Providers", ProviderColumns, true, providers).store, "Patients", PatientColumns, true, patients).skipped == 0
    requires Get(claim, "ProviderID").Some? ==> Get(claim, "ProviderID").value in KeyValues(providers, "ProviderID")
    requires Get(claim, "PatientID").Some? ==> Get(claim, "PatientID").value in KeyValues(patients, "PatientID")
    ensures var t1 := Run(store, "Providers", ProviderColumns, true, providers);
      var t2 := Run(t1.store, "Patients", PatientColumns, true, patients);
      Step(Tally(t2.store, 0, 0, 0), "Claims", ClaimColumns, true, claim).skipped == 0
  {
    var t1 := Run(store, "Providers", ProviderColumns, true, providers);
    var t2 := Run(t1.store, "Patients", PatientColumns, true, patients);
    RunKeysWithoutFailures(store, "Providers", ProviderColumns, true, providers);
    RunKeysWithoutFailures(t1.store, "Patients", PatientColumns, true, patients);
    RunOtherTables(store, "Providers", ProviderColumns, true, providers);
    RunOtherTables(t1.store, "Patients", PatientColumns, true, patients);
    ClaimColumnsFitClaimsTable();
    ClaimWithParentsIsWritten(Tally(t2.store, 0, 0, 0), ClaimColumns, claim);
  }
}
