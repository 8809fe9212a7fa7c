/** Organization records as the dataset holds them: field name to field value. */
module Records {

  /** One organization: the keys of one object of the dataset's top-level array. */
  type Record = map<string, string>

  const NameField := "Organization Name"
  const CategoriesField := "Categories"
  const TypesField := "Types of Assistance"

  /** `org[field] || ''`: the value of a field, a missing field reading as the empty string. */
  function Get(org: Record, field: string): string
  {
    if field in org then org[field] else ""
  }
}
