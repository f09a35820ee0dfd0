# Message-template component

A Dafny model of `WhatsappSdk::Resource::Component` from the Ruby WhatsApp SDK
(`lib/whatsapp_sdk/resource/component.rb`). A component is one piece of a
message template: a header, a body or a button. It carries an ordered list of
substitution parameters and, for a button, a subtype (`quick_reply` or `url`)
and a position index.

The model has two modules:

- `Wrappers` (`wrappers.dfy`): `Option`, standing for Ruby's `nil`, and
  `Result`, standing for a call that returns or raises.
- `Resource` (`component.dfy`): the model itself.
  - `Type` and `Subtype` are the two string-backed enumerations. Each has a
    `Serialize` function and the enumeration's lookup `TryDeserialize`.
  - `InvalidField` is the error, carrying a field name and a message.
  - `Json` is the hash that `to_json` builds.
  - `DefaultIndex` is the index default and `ValidateFields` the ordered
    validation.
  - `Component<P>` is a class with the fields `kind`, `parameters`, `subType`
    and `index`. The source calls `kind` `type`, which is a keyword in Dafny.
    Its constructor performs the assignment part of `initialize` for
    arguments that pass validation. `AddParameter` appends in place, and
    `ToJson` serialises.
  - `New` is `Component.new`. It runs the validation on the arguments with
    the defaulted index, and then either allocates the component or returns
    the `InvalidField` that the source raises. Ruby assigns before it
    validates, but no caller can observe the difference, because a failed
    `new` returns no object.

The source checks `sub_type` and `index` by Ruby truthiness. Both fields are
typed as nil or a value that is never `false`, so the model tests "is not
nil". The Ruby integer 0 is truthy, and this has two consequences:

- A button built without an index is serialised with `index: 0`, since
  `to_json` (component.rb:101) emits any index that is not nil.
- A header or body given an explicit index of 0 is rejected.

The comments on `parameters` and `sub_type` (component.rb:51 and 57) call them
required for a button, but the code checks neither. A bare button with no
parameters and no sub_type is accepted, and the model accepts it too.

A parameter is a value of the type parameter `P`. Its own `to_json` is passed
in as a function `enc: P -> Json`, because the parameter classes are not part
of this model.

## Model

| member | source | states |
|---|---|---|
| `Resource.Type.Serialize` | lib/whatsapp_sdk/resource/component.rb:29-33 | the string table of `Type`: each value maps to one of header, body and button; `TryDeserialize` and `TypeSerializeRoundTrip` give its inverse |
| `Resource.Subtype.Serialize` | lib/whatsapp_sdk/resource/component.rb:39-42 | the string table of `Subtype`: each value maps to one of quick_reply and url; `TryDeserialize` and `SubtypeSerializeRoundTrip` give its inverse |
| `Resource.Type.TryDeserialize` | lib/whatsapp_sdk/resource/component.rb:26-34 | the value found for a string serialises back to that string; no string outside header, body and button names a value |
| `Resource.Subtype.TryDeserialize` | lib/whatsapp_sdk/resource/component.rb:36-43 | the value found for a string serialises back to that string; no string outside quick_reply and url names a value |
| `Resource.TypeSerializeRoundTrip` | lib/whatsapp_sdk/resource/component.rb:29-33 | each type is found again from its string, so the string table is injective |
| `Resource.SubtypeSerializeRoundTrip` | lib/whatsapp_sdk/resource/component.rb:39-42 | each subtype is found again from its string, so the string table is injective |
| `Resource.DefaultIndex` | lib/whatsapp_sdk/resource/component.rb:90 | a button with no index gets index 0; an index that was given is kept for every type; a non-button's index is left as given |
| `Resource.ValidateFields` | lib/whatsapp_sdk/resource/component.rb:108-114 | passes exactly for a button or when sub_type and index are both nil; a non-button with a sub_type fails on sub_type even if an index is also set; otherwise a non-button with any index, 0 included, fails on index |
| `Resource.Component.constructor` | lib/whatsapp_sdk/resource/component.rb:86-90 | for arguments that pass validation, the fields equal the arguments, except that the index is the defaulted one, and the component is valid; only `New` stands for `Component.new` |
| `Resource.New` | lib/whatsapp_sdk/resource/component.rb:86-92 | succeeds exactly when the type is button or neither sub_type nor index is given; on failure gives the sub_type error when a sub_type was given and the index error otherwise; on success returns a fresh, valid component whose fields are the inputs with the defaulted index |
| `Resource.Component.AddParameter` | lib/whatsapp_sdk/resource/component.rb:76-78 | the parameters become the old ones followed by the new one; type, sub_type and index are unchanged, so validity is kept without validating again |
| `Resource.EncodeAll` | lib/whatsapp_sdk/resource/component.rb:98 | the serialised parameter list has the same length as the parameters, and each entry is the serialisation of the parameter at the same position |
| `Resource.EncodeAllAppend` | lib/whatsapp_sdk/resource/component.rb:76-78 | serialising after an append gives the earlier serialisation followed by that of the new parameter, so parameters are emitted in insertion order |
| `Resource.EncodeAllInjective` | lib/whatsapp_sdk/resource/component.rb:98 | when parameters serialise to distinct values, equal serialised lists come from equal parameter lists |
| `Resource.Component.ToJson` | lib/whatsapp_sdk/resource/component.rb:95-103 | type and parameters are always present with the serialised type and the serialised parameters; sub_type is present iff it is not nil, with its string; index is present iff it is not nil, 0 included, with its value; no other key appears; the component is only read |
| `Resource.ValidNonButtonJson` | lib/whatsapp_sdk/resource/component.rb:100-114 | a header or body that passed validation serialises with exactly the keys type and parameters, never sub_type or index |
| `Resource.ToJsonInjective` | lib/whatsapp_sdk/resource/component.rb:95-103 | two components with the same hash have the same type, parameters, sub_type and index, provided the parameters serialise to distinct values |

## Left out

- The Sorbet signatures and the `T::Enum` machinery are type annotations. Dafny's own types take their place. The lookup `TryDeserialize` stands for the enumeration's lookup by string.
- The attribute writers for `type`, `parameters`, `sub_type` and `index` are plain field writes and are not modelled. Through them the validation rule can be broken after construction, so `Valid` is only promised right after `New` and is kept by `AddParameter`.
- The source stores the caller's parameter array by reference, so `add_parameter` also grows the caller's array. The model gives each component its own sequence and does not capture that aliasing.
- `InvalidField` inherits from `StandardError` and calls `super(message)`. The model keeps only the field name and the message, and a raise becomes a `Failure` result.
- The parameter classes `ButtonParameter` and `ParameterObject` are not part of this model. A parameter is opaque, and its serialisation is a function passed in.
- Ruby symbols used as hash keys and as field names are modelled as strings. The hash is a value, not JSON text, and its wire encoding and transport are not modelled.
- `Resource.Component.ToJson` returns an unordered map, so the insertion order of the Ruby hash's keys (type, parameters, sub_type, index) is not modelled.
- The documented index range of 0 to 2 is not enforced by the source, and the model does not enforce it either. Indexes are unbounded integers, as Ruby's are.
