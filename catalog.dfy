/** The catalog records the pages read: schools, each with its departments.
    Only the fields the modelled code reads are kept; ids are strings, as
    they are compared with route parameters. */
module Catalog {
  import opened Wrappers

  datatype Department = Department(
    id: string,
    name: string,
    head: Option<string>,
    careerOpportunities: Option<seq<string>>)

  datatype School = School(id: string, name: string, departments: seq<Department>)
}
