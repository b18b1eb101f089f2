/** The records of the inventory application: products with their price history, users,
    suppliers, activity-log entries and low-stock notifications.

    Timestamps are milliseconds since the epoch (the source keeps ISO strings of the same
    instants); cost prices are whole numbers of cents. */
module Types {
  import opened Wrappers

  /** One recorded cost price and the instant it was recorded. */
  datatype PriceEntry = PriceEntry(costPrice: int, date: int)

  datatype Product = Product(
    id: string,
    name: string,
    category: string,
    quantity: int,
    costPrice: int,
    description: string,
    lastUpdated: int,
    location: string,
    supplierIds: seq<string>,
    reorderQuantity: int,
    priceHistory: seq<PriceEntry>)

  /** A user's role is exactly one of the two access levels. */
  datatype Role = Admin | Common

  datatype User = User(id: string, username: string, password: string, role: Role)

  /** The closed set of eighteen audited actions. */
  datatype Action =
    | Login | Logout
    | CreateProduct | UpdateProduct | DeleteProduct | UpdateProductQuantity
    | AddUser | DeleteUser | UpdateUserPassword
    | AddCategory | UpdateCategory | DeleteCategory
    | AddLocation | UpdateLocation | DeleteLocation
    | AddSupplier | UpdateSupplier | DeleteSupplier

  /** An audit value is either a number or a string. */
  datatype LogValue = Num(n: int) | Text(s: string)

  /** One audit entry; `oldValue` and `newValue` are optional. */
  datatype ActivityLog = ActivityLog(
    id: string,
    user: string,
    action: Action,
    details: string,
    timestamp: int,
    oldValue: Option<LogValue>,
    newValue: Option<LogValue>)

  datatype Supplier = Supplier(id: string, name: string, contactPerson: string, email: string, phone: string)

  /** The supplier form's fields: a supplier before an identifier is assigned. */
  datatype SupplierDraft = SupplierDraft(name: string, contactPerson: string, email: string, phone: string)

  /** The only kind of notification the application raises. */
  datatype NotificationType = LowStockAlert

  datatype Notification = Notification(
    id: string,
    kind: NotificationType,
    message: string,
    productId: string,
    timestamp: int,
    read: bool)
}
