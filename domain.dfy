/** Core domain types of the site diary: item kinds, statuses, priorities and the
    work item itself. Optional TypeScript properties (`details?`, `dueDate?`, ...)
    are `Option` values; `None` is an absent (or `undefined`) property. */
module Domain {

  datatype Option<+T> = None | Some(value: T)

  datatype Priority = Critical | High | Normal | Low

  /** The five item kinds of the type union. Records come back from untyped
      storage, so a tag outside the union is representable as `Unknown`. */
  datatype ItemType = Task | Material | Issue | Delay | Email | Unknown(tag: string)

  datatype ItemStatus =
    // generic
    | Open | InProgress | Done | Closed
    // materials
    | NotOrdered | Ordered | Dispatched | Delivered
    // issues
    | Monitoring | Resolved
    // emails
    | Draft | Sent

  type Uuid = string

  datatype Item = Item(
    id: Uuid,
    jobId: Uuid,
    dayEntryId: Uuid,
    itemType: ItemType,
    title: string,
    details: Option<string>,
    priority: Priority,
    status: ItemStatus,
    dueDate: Option<string>,             // YYYY-MM-DD
    orderByDate: Option<string>,         // YYYY-MM-DD (materials)
    requiredOnSiteDate: Option<string>,  // YYYY-MM-DD (materials)
    followUpEmailDueBy: Option<string>,  // YYYY-MM-DD (emails)
    assignedTo: Option<string>,
    rolledFromItemId: Option<Uuid>,
    createdAt: string,                   // ISO timestamp
    updatedAt: string,                   // ISO timestamp
    closedAt: Option<string>             // ISO timestamp
  )
}
