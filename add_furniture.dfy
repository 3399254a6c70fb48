/**
 * screen/AddFurnitureScreen.kt: the form state, the image picker, and the
 * submit handler, which validates the form, uploads the assets, writes the
 * new record at `furniture/category/key` and resets the form.
 */
module AddFurniture {
  import opened Optional
  import opened KotlinText
  import opened Firebase
  import opened Records
  import opened Database
  import ViewFurniture

  const Categories: seq<string> := ["Chair", "HomeDecor", "Bed", "Sofa"]

  const FillAllFields := "Please fill all fields"
  const SelectImage := "Please select at least one image"
  const SelectModel := "Please select a .glb file"
  const Added := "Furniture added successfully!"
  const UploadFailed := "Upload failed: "

  const ImagesFolder := "furniture_images"
  const ModelsFolder := "furniture_models"

  /**
   * The three checks of the submit button, in order: the first that fails
   * decides the message, and None means the form may be submitted.
   */
  function Rejection(name: string, price: string, description: string, images: seq<string>, model: Option<string>)
    : (r: Option<string>)
    ensures r == Some(FillAllFields) <==> IsBlank(name) || IsBlank(price) || IsBlank(description)
    ensures r == Some(SelectImage) <==> !IsBlank(name) && !IsBlank(price) && !IsBlank(description) && images == []
    ensures r == Some(SelectModel) <==>
      !IsBlank(name) && !IsBlank(price) && !IsBlank(description) && images != [] && model == None
    ensures r == None <==> !IsBlank(name) && !IsBlank(price) && !IsBlank(description) && images != [] && model.Some?
  {
    if IsBlank(name) || IsBlank(price) || IsBlank(description) then Some(FillAllFields)
    else if images == [] then Some(SelectImage)
    else if model == None then Some(SelectModel)
    else None
  }

  /**
   * `imageUris.map { uploadFileToFirebaseStorage(it, folder) }`: one URL per
   * image, in the order the images were picked; None when some upload fails.
   */
  function UploadAll(uris: seq<string>, folder: string, upload: (string, string) -> Option<string>)
    : (r: Option<seq<string>>)
    ensures r.Some? <==> forall i :: 0 <= i < |uris| ==> upload(uris[i], folder).Some?
    ensures r.Some? ==> |r.value| == |uris| && forall i :: 0 <= i < |uris| ==> upload(uris[i], folder) == Some(r.value[i])
  {
    if uris == [] then Some([])
    else
      match upload(uris[0], folder)
      case None => None
      case Some(url) =>
        match UploadAll(uris[1..], folder, upload)
        case None => None
        case Some(urls) => Some([url] + urls)
  }

  /** The record the form writes. */
  function NewFurniture(key: string, name: string, price: string, description: string,
                        images: seq<string>, glbModelUrl: string, category: string): Furniture
  {
    Furniture(key, Trim(name), Trim(price), Trim(description), images, glbModelUrl, category)
  }

  /** A record built from a form that passed the checks has non-empty, unpadded text fields and its key as id. */
  lemma NewFurnitureFields(key: string, name: string, price: string, description: string,
                           images: seq<string>, glbModelUrl: string, category: string)
    requires !IsBlank(name) && !IsBlank(price) && !IsBlank(description)
    ensures var f := NewFurniture(key, name, price, description, images, glbModelUrl, category);
      && f.id == key && f.category == category && f.images == images
      && f.name != "" && !IsWhitespace(f.name[0]) && !IsWhitespace(f.name[|f.name| - 1])
      && f.price != "" && !IsWhitespace(f.price[0]) && !IsWhitespace(f.price[|f.price| - 1])
      && f.description != "" && !IsWhitespace(f.description[0])
      && !IsWhitespace(f.description[|f.description| - 1])
  {
  }

  /** After a successful submit, the catalogue list of any snapshot shows the new record exactly as written. */
  lemma AddedIsListed(t: Table<Furniture>, key: string, f: Furniture, snap: Snapshot<Furniture>)
    requires f.id == key
    requires SnapshotOf(snap, SetValue(t, f.category, key, f))
    ensures f in ViewFurniture.Listed(snap)
  {
    ViewFurniture.StoredIsListed(snap, SetValue(t, f.category, key, f), f.category, key);
    assert ViewFurniture.WithKey(f, Some(key)) == f;
  }

  class AddFurnitureScreen {
    const db: Store

    var name: string
    var price: string
    var description: string
    var imageUris: seq<string>
    var glbUri: Option<string>
    var isUploading: bool
    var uploadMessage: Option<string>
    var selectedCategory: string

    /** An empty form; the category starts at the first of the list. */
    constructor(db: Store)
      ensures this.db == db
      ensures name == "" && price == "" && description == "" && imageUris == [] && glbUri == None
      ensures !isUploading && uploadMessage == None && selectedCategory == "Chair"
    {
      this.db := db;
      name, price, description := "", "", "";
      imageUris, glbUri := [], None;
      isUploading, uploadMessage := false, None;
      selectedCategory := Categories[0];
    }

    /** The image picker's result replaces the selection only when it holds at least one image. */
    method PickImages(uris: Option<seq<string>>)
      modifies this`imageUris
      ensures imageUris == if uris.Some? && uris.value != [] then uris.value else old(imageUris)
    {
      if uris.Some? && uris.value != [] {
        imageUris := uris.value;
      }
    }

    /** The model picker's result, possibly null, replaces the selection. */
    method PickModel(uri: Option<string>)
      modifies this`glbUri
      ensures glbUri == uri
    {
      glbUri := uri;
    }

    method SelectCategory(category: string)
      requires category in Categories
      modifies this`selectedCategory
      ensures selectedCategory == category
    {
      selectedCategory := category;
    }

    /** The form's text fields and selections are as they were. */
    ghost predicate FormKept(name0: string, price0: string, description0: string,
                             images0: seq<string>, model0: Option<string>)
      reads this
    {
      name == name0 && price == price0 && description == description0 && imageUris == images0 && glbUri == model0
    }

    /**
     * The submit button. `upload(uri, folder)` is the storage upload (None when
     * it throws), `pushKey` the key `push()` generates and `uuid` the fallback,
     * `writeOk` whether `setValue` succeeded and `error` the exception's message.
     */
    method Submit(upload: (string, string) -> Option<string>, pushKey: Option<string>, uuid: string,
                  writeOk: bool, error: string)
      requires db.Valid() && !isUploading
      modifies this, db`furniture
      ensures db.Valid() && !isUploading && selectedCategory == old(selectedCategory)
      ensures var rejection := Rejection(old(name), old(price), old(description), old(imageUris), old(glbUri));
        rejection.Some? ==>
          && uploadMessage == rejection && db.furniture == old(db.furniture)
          && FormKept(old(name), old(price), old(description), old(imageUris), old(glbUri))
      ensures Rejection(old(name), old(price), old(description), old(imageUris), old(glbUri)) == None ==>
        Published(old(db.furniture), old(name), old(price), old(description), old(imageUris), old(glbUri),
                  old(selectedCategory), upload, pushKey, uuid, writeOk, error)
    {
      var rejection := Rejection(name, price, description, imageUris, glbUri);
      if rejection.Some? {
        uploadMessage := rejection;
        return;
      }
      isUploading := true;
      uploadMessage := None;
      Publish(upload, pushKey, uuid, writeOk, error);
    }

    /**
     * The outcome of the launched upload for a form that passed the checks:
     * the record is written only when every upload and the write succeed,
     * and then the form is cleared; otherwise the form is kept and the
     * failure reported.
     */
    ghost predicate Published(furniture0: Table<Furniture>, name0: string, price0: string, description0: string,
                              images0: seq<string>, model0: Option<string>, category: string,
                              upload: (string, string) -> Option<string>, pushKey: Option<string>, uuid: string,
                              writeOk: bool, error: string)
      requires model0.Some?
      reads this, db
    {
      var urls := UploadAll(images0, ImagesFolder, upload);
      var glbUrl := upload(model0.value, ModelsFolder);
      var key := pushKey.GetOr(uuid);
      var added := urls.Some? && glbUrl.Some? && writeOk;
      && db.furniture == (if added then
           SetValue(furniture0, category, key,
             NewFurniture(key, name0, price0, description0, urls.value, glbUrl.value, category))
         else furniture0)
      && (added ==> uploadMessage == Some(Added) && FormKept("", "", "", [], None))
      && (!added ==> uploadMessage == Some(UploadFailed + error) && FormKept(name0, price0, description0, images0, model0))
    }

    /** The body of `scope.launch { ... }`: upload the images, then the model, then write the record. */
    method Publish(upload: (string, string) -> Option<string>, pushKey: Option<string>, uuid: string,
                   writeOk: bool, error: string)
      requires db.Valid() && glbUri.Some?
      modifies this, db`furniture
      ensures db.Valid() && !isUploading && selectedCategory == old(selectedCategory)
      ensures Published(old(db.furniture), old(name), old(price), old(description), old(imageUris), old(glbUri),
                        old(selectedCategory), upload, pushKey, uuid, writeOk, error)
    {
      ghost var furniture0, name0, price0, description0, images0 := db.furniture, name, price, description, imageUris;
      var added := false;
      var imageUrls := UploadAll(imageUris, ImagesFolder, upload);
      if imageUrls.Some? {
        var glbUrl := upload(glbUri.value, ModelsFolder);
        if glbUrl.Some? {
          var newKey := pushKey.GetOr(uuid);
          var furniture := NewFurniture(newKey, name, price, description, imageUrls.value, glbUrl.value, selectedCategory);
          db.SetFurniture(selectedCategory, newKey, furniture, writeOk);
          added := writeOk;
        }
      }
      if added {
        uploadMessage := Some(Added);
        name, price, description := "", "", "";
        imageUris := [];
        glbUri := None;
      } else {
        uploadMessage := Some(UploadFailed + error);
      }
      isUploading := false;
      assert added <==> imageUrls.Some? && upload(old(glbUri).value, ModelsFolder).Some? && writeOk;
    }
  }
}
