/** The collaborator types of domain/repository/pull_request_repository.go:
    the options a pull-request listing is asked for with. */
module Repository {
  import opened Wrappers
  import opened Entity

  /** `repository.ListOptions`: a state filter ("open", "closed", or anything
      else for no filter), the search order, an optional creation-date window
      and a page-size hint (0 for the default). */
  datatype ListOptions = ListOptions(
    state: string,
    sort: string,
    direction: string,
    since: Option<Time>,
    until: Option<Time>,
    perPage: int)
}
