/** The records the backend sends, as declared in the dashboard's type file. */
module Types {

  datatype User = User(id: string, name: string, email: string)

  datatype Category = Category(id: int, name: string)

  datatype Product = Product(id: int, name: string, price: real, category: Category)

  /** The backend's pagination block of a product page. */
  datatype PaginationInfo = PaginationInfo(
    hasPages: bool,
    currentPage: int,
    lastPage: int,
    perPage: int,
    totalRecords: int,
    hasNextPage: bool,
    hasPrevPage: bool)

  /** The `data` of `GET /products`: one page of products. */
  datatype ProductsResponse = ProductsResponse(products: seq<Product>, pagination: PaginationInfo)
}
