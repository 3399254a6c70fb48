/**
 * The two record types stored in the database. `Furniture` follows
 * model/Furniture.kt; the fields of `OrderDetail` are reconstructed from the
 * screens' uses of them.
 */
module Records {
  import opened Optional

  /** A catalogue item; `category` names the bucket it is filed under. */
  datatype Furniture = Furniture(
    id: string,
    name: string,
    price: string,
    description: string,
    images: seq<string>,
    glbModelUrl: string,
    category: string)

  /** The record Kotlin's default constructor gives: every field empty. */
  const EmptyFurniture := Furniture("", "", "", "", [], "", "")

  datatype User = User(uid: string, name: string, phone: string, address: string)

  datatype Product = Product(name: string, price: string, quantity: int)

  /** A customer order; `user.uid` is the key of the partition the order is filed under. */
  datatype OrderDetail = OrderDetail(
    orderId: string,
    paymentId: Option<string>,
    user: User,
    products: seq<Product>,
    totalPrice: string)
}
