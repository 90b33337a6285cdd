/** Repository and issue creation (`create_repo`, `create_issue`, main.py).
    Write operations are disabled in this prototype: both stubs report
    failure whatever they are given. They are kept as the single decision
    point a later version could turn into a real write. */
module Creation {

  /** `create_repo(name)`: never creates anything. */
  function CreateRepo(name: string): (created: bool)
    ensures !created
  {
    false
  }

  /** `create_issue(repo, title, body)`: never creates anything. */
  function CreateIssue(repo: string, title: string, body: string): (created: bool)
    ensures !created
  {
    false
  }
}
