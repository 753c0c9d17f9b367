/**
 * One product card and its edit dialog. The card's state is three fields
 * (whether the dialog is shown, the title being edited, and an editing flag
 * that no handler ever sets to true); the product itself is a property the
 * card receives and never changes.
 */
module ProductCard {

  /** A catalog item, as the remote API describes it. */
  datatype Product = Product(id: int, title: string, description: string, price: real, thumbnail: string)

  /** The remote title update the Save button sends: PUT /products/{id} with body {title}. */
  datatype UpdateRequest = UpdateRequest(productId: int, title: string)

  class Card {
    const product: Product
    var isEditing: bool
    var editedTitle: string
    var showModal: bool

    /** No handler ever sets isEditing to true. */
    ghost predicate Valid()
      reads this
    {
      !isEditing
    }

    constructor (product: Product)
      ensures Valid()
      ensures this.product == product
      ensures editedTitle == product.title && !showModal
    {
      this.product := product;
      isEditing := false;
      editedTitle := product.title;
      showModal := false;
    }

    /** handleEdit: opens the dialog with the product's current title. */
    method HandleEdit()
      requires Valid()
      modifies this
      ensures Valid()
      ensures showModal && editedTitle == product.title
    {
      showModal := true;
      editedTitle := product.title;
    }

    /** handleTitleChange: the typed value becomes the edited title, whatever it is (an empty title included). */
    method HandleTitleChange(value: string)
      requires Valid()
      modifies this
      ensures Valid()
      ensures editedTitle == value && showModal == old(showModal)
    {
      editedTitle := value;
    }

    /**
     * handleSave: sends the edited title as it stands, empty or not. When the
     * server answers ok the dialog closes; otherwise the dialog and the
     * unsaved title stay as they were.
     */
    method HandleSave(ok: bool) returns (request: UpdateRequest)
      requires Valid()
      modifies this
      ensures Valid()
      ensures request == UpdateRequest(product.id, old(editedTitle))
      ensures editedTitle == old(editedTitle)
      ensures ok ==> !showModal && !isEditing
      ensures !ok ==> showModal == old(showModal)
    {
      request := UpdateRequest(product.id, editedTitle);
      if ok {
        isEditing := false;
        showModal := false;
      }
    }

    /** handleModalClose: closes the dialog and discards the edit. */
    method HandleModalClose()
      requires Valid()
      modifies this
      ensures Valid()
      ensures !showModal && editedTitle == product.title
    {
      showModal := false;
      editedTitle := product.title;
    }
  }
}
