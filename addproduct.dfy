/**
 * The add/update product form: its validation rules, the single-field update
 * of `handleChange`, which fields a submission sends, and the component state.
 */
module AddProduct {
  import opened Wrappers
  import opened Text
  import opened Regex
  import opened Patterns
  import opened Http

  /** A selected upload; only its name matters to the client. */
  datatype File = File(name: string)

  /** `formData`. */
  datatype ProductForm = ProductForm(name: string, price: string, description: string, file: Option<File>)

  /** The keys of the error object. */
  datatype ProductField = NameField | PriceField | DescriptionField | FileField

  /** The text inputs; the file input is the only one that carries `files`. */
  datatype TextInput = NameInput | PriceInput | DescriptionInput

  /** `e.target` for an input's change event. */
  datatype ChangeEvent =
    | Typed(input: TextInput, value: string)
    | Picked(files: seq<File>)

  const EmptyForm := ProductForm("", "", "", None)

  const AllFields: set<ProductField> := {NameField, PriceField, DescriptionField, FileField}

  const NameInvalid := "Name should contain only alphabets"
  const PriceInvalid := "Price should be a decimal value"
  const DescriptionInvalid := "Description should contain only alphabets"
  const FileRequired := "File is required"
  const FileFormatInvalid := "File should be in jpeg or png format"

  /** Every message the form can show. */
  const ProductMessages: set<string> := {NameInvalid, PriceInvalid, DescriptionInvalid, FileRequired, FileFormatInvalid}

  /** A truthy route parameter `productId`: the form updates an existing product. */
  predicate IsUpdate(productId: Option<string>) {
    productId.Some? && Truthy(productId.value)
  }

  /** `file.name.split('.').pop().toLowerCase()`. */
  function Extension(fileName: string): (r: string)
    ensures '.' !in fileName ==> r == AsciiLower(fileName)
  {
    SplitCountsSeparators(fileName, '.');
    AsciiLower(Last(Split(fileName, '.')))
  }

  /** `['jpeg', 'png'].includes(extension)`. */
  predicate HasImageExtension(f: File) {
    Extension(f.name) == "jpeg" || Extension(f.name) == "png"
  }

  /** The message one field contributes, if any. */
  function FieldError(form: ProductForm, productId: Option<string>, field: ProductField): (r: Option<string>)
    ensures r.Some? ==> r.value in ProductMessages
  {
    match field
    case NameField => if Matches(NameRegex, form.name) then None else Some(NameInvalid)
    case PriceField => if Matches(PriceRegex, form.price) then None else Some(PriceInvalid)
    case DescriptionField => if Matches(NameRegex, form.description) then None else Some(DescriptionInvalid)
    case FileField => FileError(form.file, productId)
  }

  /** The file rule: required when adding, and a jpeg or png extension whenever present. */
  function FileError(file: Option<File>, productId: Option<string>): (r: Option<string>)
    ensures r == Some(FileRequired) <==> file.None? && !IsUpdate(productId)
    ensures r == Some(FileFormatInvalid) <==> file.Some? && !HasImageExtension(file.value)
    ensures file.Some? && HasImageExtension(file.value) ==> r.None?
  {
    match file
    case None => if IsUpdate(productId) then None else Some(FileRequired)
    case Some(f) => if HasImageExtension(f) then None else Some(FileFormatInvalid)
  }

  /** The error object `validateForm` computes: each field's message, keyed by field. */
  function ProductErrors(form: ProductForm, productId: Option<string>): (r: map<ProductField, string>)
    ensures forall field :: field in r ==> r[field] in ProductMessages
  {
    map field | field in AllFields && FieldError(form, productId, field).Some? :: FieldError(form, productId, field).value
  }

  /** `validateForm`'s computation: fill `newErrors` field by field; valid iff it stays empty. */
  method Validate(form: ProductForm, productId: Option<string>) returns (newErrors: map<ProductField, string>, valid: bool)
    ensures newErrors == ProductErrors(form, productId)
    ensures valid <==> newErrors == map[]
  {
    var nameOk, priceOk, descriptionOk := Matches(NameRegex, form.name), Matches(PriceRegex, form.price), Matches(NameRegex, form.description);
    newErrors := map[];
    if !nameOk {
      newErrors := newErrors[NameField := NameInvalid];
    }
    if !priceOk {
      newErrors := newErrors[PriceField := PriceInvalid];
    }
    if !descriptionOk {
      newErrors := newErrors[DescriptionField := DescriptionInvalid];
    }
    if !IsUpdate(productId) {
      if form.file.None? {
        newErrors := newErrors[FileField := FileRequired];
      } else {
        var imageOk := HasImageExtension(form.file.value);
        if !imageOk {
          newErrors := newErrors[FileField := FileFormatInvalid];
        }
      }
    } else {
      if form.file.Some? {
        var imageOk := HasImageExtension(form.file.value);
        if !imageOk {
          newErrors := newErrors[FileField := FileFormatInvalid];
        }
      }
    }
    AgreesByField(form, productId, newErrors);
    ProductErrorsByField(form, productId, newErrors);
    valid := |newErrors| == 0;
  }

  /** A map that agrees with the four rules field by field gives each field its message. */
  lemma AgreesByField(form: ProductForm, productId: Option<string>, m: map<ProductField, string>)
    requires (NameField in m <==> !Matches(NameRegex, form.name)) && (NameField in m ==> m[NameField] == NameInvalid)
    requires (PriceField in m <==> !Matches(PriceRegex, form.price)) && (PriceField in m ==> m[PriceField] == PriceInvalid)
    requires (DescriptionField in m <==> !Matches(NameRegex, form.description))
    requires DescriptionField in m ==> m[DescriptionField] == DescriptionInvalid
    requires (FileField in m <==> FileError(form.file, productId).Some?)
    requires FileField in m ==> m[FileField] == FileError(form.file, productId).value
    ensures forall field :: field in m <==> FieldError(form, productId, field).Some?
    ensures forall field :: field in m ==> m[field] == FieldError(form, productId, field).value
  {
    forall field ensures (field in m <==> FieldError(form, productId, field).Some?)
                      && (field in m ==> m[field] == FieldError(form, productId, field).value) {
      match field
      case NameField =>
      case PriceField =>
      case DescriptionField =>
      case FileField =>
    }
  }

  /** A map that agrees with every field's message is the error object. */
  lemma ProductErrorsByField(form: ProductForm, productId: Option<string>, m: map<ProductField, string>)
    requires forall field :: field in m <==> FieldError(form, productId, field).Some?
    requires forall field :: field in m ==> m[field] == FieldError(form, productId, field).value
    ensures m == ProductErrors(form, productId)
  {
    var e := ProductErrors(form, productId);
    forall field ensures (field in m <==> field in e) && (field in m ==> m[field] == e[field]) {
      assert field in AllFields by {
        match field
        case NameField =>
        case PriceField =>
        case DescriptionField =>
        case FileField =>
      }
    }
    assert m.Keys == e.Keys;
  }

  /** The name rule: one or more ASCII letters or whitespace characters. */
  lemma NameRule(form: ProductForm, productId: Option<string>)
    ensures NameField in ProductErrors(form, productId) <==> !(|form.name| >= 1 && AllLettersOrSpaces(form.name))
    ensures NameField in ProductErrors(form, productId) ==> ProductErrors(form, productId)[NameField] == NameInvalid
  {
    NameRegexMeaning(form.name);
  }

  /** The price rule: digits, optionally a `.` and one or two more digits. */
  lemma PriceRule(form: ProductForm, productId: Option<string>)
    ensures PriceField in ProductErrors(form, productId) <==> !IsPriceText(form.price)
    ensures PriceField in ProductErrors(form, productId) ==> ProductErrors(form, productId)[PriceField] == PriceInvalid
  {
    PriceRegexMeaning(form.price);
  }

  /** The description is held to the name rule, with its own message. */
  lemma DescriptionRule(form: ProductForm, productId: Option<string>)
    ensures DescriptionField in ProductErrors(form, productId)
        <==> !(|form.description| >= 1 && AllLettersOrSpaces(form.description))
    ensures DescriptionField in ProductErrors(form, productId)
        <==> NameField in ProductErrors(form.(name := form.description), productId)
    ensures DescriptionField in ProductErrors(form, productId)
        ==> ProductErrors(form, productId)[DescriptionField] == DescriptionInvalid
  {
    NameRegexMeaning(form.description);
  }

  /**
   * The file rule. Adding needs a file; updating accepts none. A file that is
   * there, in either mode, must have a jpeg or png extension.
   */
  lemma FileRule(form: ProductForm, productId: Option<string>)
    ensures form.file.None? && !IsUpdate(productId)
        ==> FileField in ProductErrors(form, productId) && ProductErrors(form, productId)[FileField] == FileRequired
    ensures form.file.None? && IsUpdate(productId) ==> FileField !in ProductErrors(form, productId)
    ensures form.file.Some? ==> (FileField in ProductErrors(form, productId) <==> !HasImageExtension(form.file.value))
    ensures form.file.Some? && FileField in ProductErrors(form, productId)
        ==> ProductErrors(form, productId)[FileField] == FileFormatInvalid
  {
    assert FieldError(form, productId, FileField) == FileError(form.file, productId);
  }

  /** The form is valid exactly when every one of the four rules holds. */
  lemma {:induction false} ValidIffAllRules(form: ProductForm, productId: Option<string>)
    ensures ProductErrors(form, productId) == map[]
        <==> && |form.name| >= 1 && AllLettersOrSpaces(form.name)
             && IsPriceText(form.price)
             && |form.description| >= 1 && AllLettersOrSpaces(form.description)
             && (if IsUpdate(productId) then form.file.None? || HasImageExtension(form.file.value)
                 else form.file.Some? && HasImageExtension(form.file.value))
  {
    NameRule(form, productId);
    PriceRule(form, productId);
    DescriptionRule(form, productId);
    FileRule(form, productId);
    var e := ProductErrors(form, productId);
    if e != map[] {
      var field :| field in e;
      assert field == NameField || field == PriceField || field == DescriptionField || field == FileField;
    }
  }

  /**
   * The extension is the text after the last `.`, or the whole name when
   * there is none, lower-cased.
   */
  lemma {:induction false} ExtensionIsAfterLastDot(fileName: string)
    ensures '.' !in fileName ==> Extension(fileName) == AsciiLower(fileName)
    ensures '.' in fileName ==> exists k :: 0 <= k < |fileName| && fileName[k] == '.' && '.' !in fileName[k + 1..]
                                      && Extension(fileName) == AsciiLower(fileName[k + 1..])
  {
    LastPieceOfSplit(fileName, '.');
  }

  /** Whatever precedes the last `.`, only the text after it decides the extension. */
  lemma ExtensionOfLastSegment(base: string, ext: string)
    requires '.' !in ext
    ensures Extension(base + "." + ext) == AsciiLower(ext)
  {
    var s := base + "." + ext;
    LastPieceOfSplit(s, '.');
    var k :| 0 <= k < |s| && s[k] == '.' && Last(Split(s, '.')) == s[k + 1..] && '.' !in s[k + 1..];
    assert s[|base|] == '.' && s[|base| + 1..] == ext;

  }

  /** `"a.PNG"` and a bare `"png"` are images. */
  lemma ImageExamples()
    ensures HasImageExtension(File("a.PNG")) && HasImageExtension(File("png"))
  {
    var upper, bare := "a.PNG", "png";
    ExtensionOfLastSegment("a", "PNG");
    assert "a" + "." + "PNG" == upper;
    assert AsciiLower("PNG") == "png" by {
      AsciiLowerAt("PNG", 0);
      AsciiLowerAt("PNG", 1);
      AsciiLowerAt("PNG", 2);
    }
    SplitCountsSeparators(bare, '.');
    assert AsciiLower(bare) == "png" by {
      AsciiLowerAt(bare, 0);
      AsciiLowerAt(bare, 1);
      AsciiLowerAt(bare, 2);
    }
  }

  /** `"a.jpg"` is not an image: only jpeg and png are. */
  lemma JpgIsNotImage()
    ensures !HasImageExtension(File("a.jpg"))
  {
    ExtensionOfLastSegment("a", "jpg");
    assert "a" + "." + "jpg" == "a.jpg";
    AsciiLowerAt("jpg", 0);
  }

  /** `"photo.png.gif"` is not an image: only the text after the last `.` counts. */
  lemma LastExtensionDecides()
    ensures !HasImageExtension(File("photo.png.gif"))
  {
    ExtensionOfLastSegment("photo.png", "gif");
    assert "photo.png" + "." + "gif" == "photo.png.gif";
    AsciiLowerAt("gif", 0);
  }

  /** The text of one text input in the form. */
  function TextOf(form: ProductForm, input: TextInput): string {
    match input
    case NameInput => form.name
    case PriceInput => form.price
    case DescriptionInput => form.description
  }

  /** `handleChange`: `{...formData, [name]: files ? files[0] : value}`. */
  function Changed(form: ProductForm, ev: ChangeEvent): (r: ProductForm)
    ensures ev.Typed? ==> TextOf(r, ev.input) == ev.value && r.file == form.file
    ensures ev.Typed? ==> forall other :: other != ev.input ==> TextOf(r, other) == TextOf(form, other)
    ensures ev.Picked? ==> r.file == (if |ev.files| > 0 then Some(ev.files[0]) else None)
    ensures ev.Picked? ==> forall input :: TextOf(r, input) == TextOf(form, input)
  {
    match ev
    case Typed(NameInput, v) => form.(name := v)
    case Typed(PriceInput, v) => form.(price := v)
    case Typed(DescriptionInput, v) => form.(description := v)
    case Picked(files) => form.(file := if |files| > 0 then Some(files[0]) else None)
  }

  /** The error key that belongs to the input an event changed. */
  function FieldOf(ev: ChangeEvent): ProductField {
    match ev
    case Typed(NameInput, _) => NameField
    case Typed(PriceInput, _) => PriceField
    case Typed(DescriptionInput, _) => DescriptionField
    case Picked(_) => FileField
  }

  /** A change can only alter the verdict on the field it changed. */
  lemma ChangeTouchesOneVerdict(form: ProductForm, productId: Option<string>, ev: ChangeEvent, field: ProductField)
    requires field != FieldOf(ev)
    ensures field in ProductErrors(Changed(form, ev), productId) <==> field in ProductErrors(form, productId)
    ensures field in ProductErrors(form, productId)
        ==> ProductErrors(Changed(form, ev), productId)[field] == ProductErrors(form, productId)[field]
  {
    assert FieldError(Changed(form, ev), productId, field) == FieldError(form, productId, field);
  }

  /** A multipart value: text, or the file slot (`null` when nothing was chosen). */
  datatype Part = TextPart(text: string) | FilePart(file: Option<File>)

  /** The multipart body, as its `(key, value)` entries in `append` order. */
  type Payload = seq<(string, Part)>

  function Keys(p: Payload): seq<string> {
    seq(|p|, i requires 0 <= i < |p| => p[i].0)
  }

  /** `addNewProduct` appends the three text fields and, unconditionally, the file. */
  function AddPayload(form: ProductForm): Payload {
    [("name", TextPart(form.name)), ("price", TextPart(form.price)),
     ("description", TextPart(form.description)), ("file", FilePart(form.file))]
  }

  /** `updateExistingProduct` appends the file only when one was chosen. */
  function UpdatePayload(form: ProductForm): (r: Payload)
    ensures r == AddPayload(form) || (form.file.None? && r == AddPayload(form)[..3])
  {
    [("name", TextPart(form.name)), ("price", TextPart(form.price)), ("description", TextPart(form.description))]
      + (if form.file.Some? then [("file", FilePart(form.file))] else [])
  }

  /** Adding always sends a `file` entry; updating sends one exactly when a file is chosen. */
  lemma PayloadKeys(form: ProductForm)
    ensures Keys(AddPayload(form)) == ["name", "price", "description", "file"]
    ensures "file" in Keys(UpdatePayload(form)) <==> form.file.Some?
    ensures Keys(UpdatePayload(form))[..3] == ["name", "price", "description"]
  {
    var u := UpdatePayload(form);
    if "file" in Keys(u) {
      var i :| 0 <= i < |u| && Keys(u)[i] == "file";
      assert i >= 3;
    }
    if form.file.Some? {
      assert Keys(u)[3] == "file";
    }
  }

  /** The request `handleSubmit` issues. */
  datatype Request =
    | AddRequest(body: Payload)                        // POST /addProduct
    | UpdateRequest(productId: string, body: Payload)  // PUT /product/:id

  /** The submission that passed validation: every text field and any file it carries obey the rules. */
  lemma {:induction false} SubmittedFormObeysRules(form: ProductForm, productId: Option<string>)
    requires ProductErrors(form, productId) == map[]
    ensures |form.name| >= 1 && AllLettersOrSpaces(form.name) && IsPriceText(form.price)
    ensures |form.description| >= 1 && AllLettersOrSpaces(form.description)
    ensures !IsUpdate(productId) ==> form.file.Some? && HasImageExtension(form.file.value)
    ensures forall i :: 0 <= i < |UpdatePayload(form)| && UpdatePayload(form)[i].1.FilePart?
                    ==> UpdatePayload(form)[i].1.file.Some? && HasImageExtension(UpdatePayload(form)[i].1.file.value)
  {
    ValidIffAllRules(form, productId);
  }

  /** What `getProductDetails` reads from `result.data`. */
  datatype ProductDetails = ProductDetails(name: string, price: string, description: string, file: string)

  /**
   * The add/update product screen's state: the route's `productId`, `formData`,
   * `errors` and `fileName`. The add and update routes render the screen at the
   * same place, so one screen lives on across a change of `productId`.
   */
  class AddProductView {
    var productId: Option<string>
    var formData: ProductForm
    var errors: map<ProductField, string>
    var fileName: Option<string>

    /** First render: empty form, no errors, no stored image. */
    constructor (productId: Option<string>)
      ensures this.productId == productId
      ensures formData == EmptyForm && errors == map[] && fileName == None
    {
      this.productId := productId;
      formData := EmptyForm;
      errors := map[];
      fileName := None;
    }

    /**
     * The `productId` effect: in add mode, reset the form and the stored image
     * name; in update mode, send `getProductDetails` for the id and change
     * nothing yet. `fetched` is the id whose details were requested.
     */
    method RouteEffect() returns (fetched: Option<string>)
      modifies this`formData, this`fileName
      ensures IsUpdate(productId) ==> fetched == productId && formData == old(formData) && fileName == old(fileName)
      ensures !IsUpdate(productId) ==> fetched == None && formData == EmptyForm && fileName == None
    {
      if IsUpdate(productId) {
        fetched := productId;
      } else {
        fetched := None;
        formData := EmptyForm;
        fileName := None;
      }
    }

    /**
     * The answer to `getProductDetails`: a body with `statusCode` 200 fills the
     * text fields (never the file) and the stored image name, whatever the
     * route is by the time it arrives; anything else changes nothing.
     */
    method DetailsArrived(details: Response<ProductDetails>)
      modifies this`formData, this`fileName
      ensures details.Is(200)
          ==> formData == ProductForm(details.data.name, details.data.price, details.data.description, None)
              && fileName == Some(details.data.file)
      ensures !details.Is(200) ==> formData == old(formData) && fileName == old(fileName)
    {
      if details.Is(200) {
        var d := details.data;
        formData := ProductForm(d.name, d.price, d.description, None);
        fileName := Some(d.file);
      }
    }

    /**
     * The route parameter changes while the screen stays mounted: the `productId`
     * effect runs again when the value differs, and `errors` is kept, so an add
     * form reached from an update screen still shows the update's messages. A
     * details request still in flight is answered by `DetailsArrived` later.
     */
    method ChangeRoute(newId: Option<string>) returns (fetched: Option<string>)
      modifies this`productId, this`formData, this`fileName
      ensures productId == newId && errors == old(errors)
      ensures newId != old(productId) && IsUpdate(newId)
          ==> fetched == newId && formData == old(formData) && fileName == old(fileName)
      ensures newId != old(productId) && !IsUpdate(newId) ==> fetched == None && formData == EmptyForm && fileName == None
      ensures newId == old(productId) ==> fetched == None && formData == old(formData) && fileName == old(fileName)
    {
      fetched := None;
      if newId != productId {
        productId := newId;
        fetched := RouteEffect();
      }
    }

    /** `validateForm`: store the error object; valid iff it is empty. */
    method ValidateForm() returns (valid: bool)
      modifies this`errors
      ensures errors == ProductErrors(formData, productId)
      ensures valid <==> errors == map[]
    {
      var newErrors;
      newErrors, valid := Validate(formData, productId);
      errors := newErrors;
    }

    /** `handleChange`. */
    method HandleChange(ev: ChangeEvent)
      modifies this`formData
      ensures formData == Changed(old(formData), ev)
    {
      formData := Changed(formData, ev);
    }

    /**
     * `handleSubmit`: validate; when valid, issue the update request for a
     * truthy `productId` and the add request otherwise.
     */
    method HandleSubmit() returns (request: Option<Request>)
      modifies this`errors
      ensures errors == ProductErrors(formData, productId)
      ensures request.None? <==> errors != map[]
      ensures request.Some? && IsUpdate(productId) ==> request.value == UpdateRequest(productId.value, UpdatePayload(formData))
      ensures request.Some? && !IsUpdate(productId) ==> request.value == AddRequest(AddPayload(formData))
    {
      var valid := ValidateForm();
      if !valid {
        request := None;
      } else if IsUpdate(productId) {
        request := Some(UpdateRequest(productId.value, UpdatePayload(formData)));
      } else {
        request := Some(AddRequest(AddPayload(formData)));
      }
    }

    /**
     * The answer to `sent`, a request `HandleSubmit` issued: the handler that
     * sent it decides, whatever the route is by the time it arrives. A 201 to
     * an add and a 200 to an update empty the form, the update also forgets the
     * stored image; anything else leaves the screen as it is.
     */
    method SubmitResponded(sent: Request, response: Response<()>)
      modifies this`formData, this`fileName
      ensures sent.AddRequest? && response.Is(201) ==> formData == EmptyForm && fileName == old(fileName)
      ensures sent.UpdateRequest? && response.Is(200) ==> formData == EmptyForm && fileName == None
      ensures !(if sent.UpdateRequest? then response.Is(200) else response.Is(201))
          ==> formData == old(formData) && fileName == old(fileName)
    {
      if sent.AddRequest? {
        if response.Is(201) {
          formData := EmptyForm;
        }
      } else if response.Is(200) {
        formData := EmptyForm;
        fileName := None;
      }
    }
  }

  /**
   * The header's "Add Product" link followed while an update screen's details
   * request is in flight: the effect empties the form, then the late 200 fills
   * the add form with the product's texts and image name.
   */
  method DetailsAfterAddLink(view: AddProductView, details: ProductDetails)
    requires IsUpdate(view.productId)
    modifies view
    ensures view.productId == None
    ensures view.formData == ProductForm(details.name, details.price, details.description, None)
    ensures view.fileName == Some(details.file)
  {
    var fetched := view.ChangeRoute(None);
    view.DetailsArrived(Received(200, details));
  }
}
