/** The status enumerations of the portal's database rows. */
module Domain {

  /** Status of one milestone of a project's timeline. */
  datatype MilestoneStatus = Pending | Active | Done

  /** Lifecycle status of a project. */
  datatype ProjectStatus =
    | Consultation
    | Contract
    | GridApplication
    | Installation
    | Commissioning
    | FeedIn
    | Completed

  /** The string each project status is stored as. */
  function ProjectStatusKey(s: ProjectStatus): string {
    match s
    case Consultation => "consultation"
    case Contract => "contract"
    case GridApplication => "grid_application"
    case Installation => "installation"
    case Commissioning => "commissioning"
    case FeedIn => "feed_in"
    case Completed => "completed"
  }
}
