/**
  * The status pill of src/components/data-grid/StatusBadge.tsx (repeated
  * verbatim as the StatusBadge export of DataTable.tsx): a colour class
  * looked up by the lower-cased status, with a slate default, and the
  * status as label with its first letter upper-cased (Text.Capitalize).
  */
module StatusBadge {
  import Text

  const Green := "bg-green-100 text-green-800 dark:bg-green-900 dark:text-green-100"
  const Amber := "bg-amber-100 text-amber-800 dark:bg-amber-900 dark:text-amber-100"
  const Slate := "bg-slate-100 text-slate-800 dark:bg-slate-800 dark:text-slate-100"
  const Red := "bg-red-100 text-red-800 dark:bg-red-900 dark:text-red-100"
  const Blue := "bg-blue-100 text-blue-800 dark:bg-blue-900 dark:text-blue-100"

  /** The statusMap record. */
  const StatusClasses: map<string, string> := map[
    "active" := Green,
    "pending" := Amber,
    "inactive" := Slate,
    "approved" := Green,
    "rejected" := Red,
    "review" := Blue
  ]

  /** The class used when the lookup finds nothing. */
  const DefaultClass := Slate

  /** getStatusColor: `statusMap[status.toLowerCase()] || default`. */
  function StatusClass(status: string): (r: string)
    ensures Text.Lower(status) in StatusClasses ==> r == StatusClasses[Text.Lower(status)]
    ensures Text.Lower(status) !in StatusClasses ==> r == DefaultClass
    ensures r in StatusClasses.Values
  {
    var key := Text.Lower(status);
    assert StatusClasses["inactive"] == DefaultClass;
    if key in StatusClasses && StatusClasses[key] != "" then StatusClasses[key] else DefaultClass
  }

  /** The lookup ignores case: a status and its lower-cased form get the same class. */
  lemma ClassIgnoresCase(status: string)
    ensures StatusClass(Text.Lower(status)) == StatusClass(status)
  {
    Text.LowerIdempotent(status);
  }

  /** An unknown status gets the slate default, and "inactive" is given that same class. */
  lemma UnknownAndInactiveShareDefault(status: string)
    requires Text.Lower(status) !in StatusClasses
    ensures StatusClass(status) == DefaultClass == StatusClass("inactive")
  {
    assert Text.Lower("inactive") == "inactive";
  }

  /** "active" and "approved" are both green, and "Approved" is green too. */
  lemma ActiveAndApprovedShareClass()
    ensures StatusClass("active") == StatusClass("approved") == StatusClass("Approved") == Green
  {
    assert Text.Lower("active") == "active";
    assert Text.Lower("approved") == "approved";
    assert Text.Lower("Approved") == "approved";
  }
}
