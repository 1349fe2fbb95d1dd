// The result of validating a module (lib/report.js): the module's bindings
// and its exports, with read-only queries over them.
module Reports {
  import opened Failure
  import opened Types

  /** An exported function: its internal name and its signature. */
  datatype Export = Export(name: string, arrow: Arrow)

  /**
   * The export clause: either one function returned by name, or an object
   * literal whose keys (the external names) map to exported functions.
   */
  datatype Exports = Single(sole: Export) | Multiple(exports: map<string, Export>)

  datatype Report = Report(globals: map<string, Binding>, exportsRecord: Exports) {

    /** `getFunction` (lib/report.js:8-13): the signature of `f` when `f` is bound in the module scope to a function. */
    function GetFunction(f: string): (r: Option<Arrow>)
      ensures r.Some? <==> f in globals && globals[f].ty.Fn?
      ensures r.Some? ==> globals[f].ty == Fn(r.value)
    {
      if f in globals && globals[f].ty.Fn? then Some(globals[f].ty.arrow) else None
    }

    /** `isSingleExport` (lib/report.js:15-17). */
    predicate IsSingleExport() {
      exportsRecord.Single?
    }

    /**
     * `getExport` (lib/report.js:21-25): for a single export, its internal name
     * whatever the argument; otherwise the internal name stored under the
     * external key `k`, and nothing for a key that was never exported.
     */
    function GetExport(k: string): (r: Option<string>)
      ensures IsSingleExport() ==> r == Some(exportsRecord.sole.name)
      ensures !IsSingleExport() ==> (r.Some? <==> k in exportsRecord.exports)
      ensures !IsSingleExport() && k in exportsRecord.exports ==> r == Some(exportsRecord.exports[k].name)
    {
      match exportsRecord
      case Single(e) => Some(e.name)
      case Multiple(table) => if k in table then Some(table[k].name) else None
    }
  }

  /** In single mode the answer to `getExport` does not depend on its argument. */
  lemma SingleExportIgnoresKey(r: Report, k1: string, k2: string)
    requires r.IsSingleExport()
    ensures r.GetExport(k1) == r.GetExport(k2)
  {
  }
}
